/** The client's session: the move notation, the handling of the lines
    received from the server, and the click handler that sends a move.
    The widgets are not modelled; the session keeps only the state the
    handlers read or write. */
module Client {
  import opened Reversi
  import opened Network

  /** A char holding the low eight bits of `n`, as C++ `char` arithmetic
      stores it. */
  function Byte(n: int): char {
    (n % 256) as char
  }

  /** `position_to_string`: the column letter, then the row digit, with
      row 0 written as '8'. */
  function PositionToString(row: int, col: int): (s: string)
    ensures |s| == 2
    ensures IsValidPos(row, col) ==> 'a' <= s[0] <= 'h' && '1' <= s[1] <= '8'
  {
    [Byte('a' as int + col), Byte('8' as int - row)]
  }

  /** Every board square written out reads back as itself. */
  lemma PositionRoundTrip(row: int, col: int, row0: int, col0: int)
    requires IsValidPos(row, col)
    ensures ParseMove(PositionToString(row, col), row0, col0) == Parsed(true, row, col)
  {
  }

  /** Every text that parses writes back as itself. */
  lemma NotationRoundTrip(move: string, row0: int, col0: int)
    requires ParseMove(move, row0, col0).ok
    ensures PositionToString(ParseMove(move, row0, col0).row, ParseMove(move, row0, col0).col) == move
  {
    var p := ParseMove(move, row0, col0);
    assert PositionToString(p.row, p.col) == [move[0], move[1]];
  }

  /** The session state the handlers keep: the board, whose turn it is,
      this player's piece and name, the opponent's name and the move
      history. */
  datatype Session = Session(
    board: Board,
    isMyTurn: bool,
    myPiece: char,
    myName: string,
    opponentName: string,
    history: seq<string>)

  /** `text[0]` of a `std::string`: the first character, or NUL for the
      empty string. */
  function FirstChar(text: string): (ch: char)
    ensures text != [] ==> ch == text[0]
    ensures text == [] ==> ch == '\0'
  {
    if text == [] then '\0' else text[0]
  }

  /** The board after `set_board_state(text)`. */
  function Loaded(b: Board, text: string): (r: Board)
    ensures |text| == 64 ==> r == text
    ensures |text| != 64 ==> r == b
  {
    if |text| == 64 then text else b
  }

  /** The effect of one line, already stripped, on the session: the
      command's branch of `check_network_messages`. `WAIT`, `INVALID` and
      `OPPONENT_DISCONNECT` only change the widgets. */
  function Dispatch(s: Session, line: string): Session {
    var parts := Tokens(line, ':');
    var cmd := Command(parts);
    if cmd == "START" && |parts| >= 3 then
      s.(opponentName := parts[1], myPiece := FirstChar(parts[2]))
    else if cmd == "YOUR_TURN" && |parts| >= 2 then
      s.(board := Loaded(s.board, parts[1]), isMyTurn := true)
    else if cmd == "OPPONENT_TURN" && |parts| >= 2 then
      s.(board := Loaded(s.board, parts[1]), isMyTurn := false)
    else if cmd == "MOVE_OK" && |parts| >= 2 then
      s.(history := s.history + [s.myName + ": " + parts[1]], isMyTurn := false)
    else if cmd == "END" && |parts| >= 3 then
      s.(board := Loaded(s.board, parts[2]))
    else s
  }

  /** A line whose command is not one of the five that change the
      session, or that has too few fields for its command, changes
      nothing. */
  lemma DispatchIgnores(s: Session, line: string)
    requires var parts := Tokens(line, ':');
      var cmd := Command(parts);
      (cmd !in {"START", "YOUR_TURN", "OPPONENT_TURN", "MOVE_OK", "END"})
      || (cmd in {"START", "END"} && |parts| < 3)
      || |parts| < 2
    ensures Dispatch(s, line) == s
  {
  }

  /** The fields of `cmd:f`, when neither holds ':' and `f` is not
      empty. */
  lemma TwoFields(cmd: string, f: string)
    requires ':' !in cmd && ':' !in f && f != []
    ensures Tokens(cmd + ":" + f, ':') == [cmd, f]
  {
    TokensCons(cmd, f, ':');
    TokensLast(f, ':');
  }

  /** The fields of `cmd:f:g`, when none holds ':' and `g` is not empty. */
  lemma ThreeFields(cmd: string, f: string, g: string)
    requires ':' !in cmd && ':' !in f && ':' !in g && g != []
    ensures Tokens(cmd + ":" + f + ":" + g, ':') == [cmd, f, g]
  {
    assert cmd + ":" + f + ":" + g == cmd + ":" + (f + ":" + g) by {
      AppendAssoc(cmd + ":" + f, ":", g);
      AppendAssoc(cmd + ":", f, ":" + g);
      AppendAssoc(f, ":", g);
    }
    TokensCons(cmd, f + ":" + g, ':');
    TwoFields(f, g);
  }

  /** `YOUR_TURN:b` and `OPPONENT_TURN:b` set the turn; the board becomes
      `b` when it has 64 characters and is kept otherwise. Nothing else
      changes. */
  lemma TurnMessage(s: Session, mine: bool, b: string)
    requires ':' !in b && b != []
    ensures var cmd := if mine then "YOUR_TURN" else "OPPONENT_TURN";
      Dispatch(s, cmd + ":" + b) == s.(isMyTurn := mine, board := if |b| == 64 then b else s.board)
  {
    var cmd := if mine then "YOUR_TURN" else "OPPONENT_TURN";
    TwoFields(cmd, b);
  }

  /** `START:name:piece` records the opponent's name and this player's
      piece, the first character of the third field; board, turn and
      history are untouched. */
  lemma StartMessage(s: Session, name: string, piece: string)
    requires ':' !in name && ':' !in piece && piece != []
    ensures Dispatch(s, "START:" + name + ":" + piece)
         == s.(opponentName := name, myPiece := piece[0])
  {
    assert "START:" + name + ":" + piece == "START" + ":" + name + ":" + piece;
    ThreeFields("START", name, piece);
  }

  /** `MOVE_OK:m` adds "name: m" to the history and ends the turn; the
      board is untouched. */
  lemma MoveOkMessage(s: Session, m: string)
    requires ':' !in m && m != []
    ensures Dispatch(s, "MOVE_OK:" + m)
         == s.(history := s.history + [s.myName + ": " + m], isMyTurn := false)
  {
    assert "MOVE_OK:" + m == "MOVE_OK" + ":" + m;
    TwoFields("MOVE_OK", m);
  }

  /** `MOVE_OK:` with nothing after the colon has a single field, as the
      reader drops the empty last field, so it is ignored. */
  lemma MoveOkEmpty(s: Session)
    ensures Dispatch(s, "MOVE_OK:") == s
  {
    TokensCons("MOVE_OK", "", ':');
    assert "MOVE_OK" + [':'] + "" == "MOVE_OK:";
  }

  /** `END:result:b` loads the board `b` when it has 64 characters and
      changes nothing else. */
  lemma EndMessage(s: Session, result: string, b: string)
    requires ':' !in result && ':' !in b && b != []
    ensures Dispatch(s, "END:" + result + ":" + b) == s.(board := if |b| == 64 then b else s.board)
  {
    assert "END:" + result + ":" + b == "END" + ":" + result + ":" + b;
    ThreeFields("END", result, b);
  }

  /** The line with at most one final '\r' removed. */
  function StripCR(line: string): (r: string)
    ensures r == line || r + ['\r'] == line
    ensures line != [] && line[|line| - 1] == '\r' ==> r + ['\r'] == line
  {
    if line != [] && line[|line| - 1] == '\r' then line[..|line| - 1] else line
  }

  /** The lines that are dispatched, in order: the empty ones are skipped
      and the others lose one final '\r'. */
  function Prepared(lines: seq<string>): seq<string> {
    if lines == [] then []
    else
      var last := lines[|lines| - 1];
      Prepared(lines[..|lines| - 1]) + (if last == [] then [] else [StripCR(last)])
  }

  /** The lines of a received chunk as they are dispatched. */
  function Incoming(msg: string): seq<string> {
    Prepared(Tokens(msg, '\n'))
  }

  /** The session after dispatching `lines` in order. */
  function Apply(s: Session, lines: seq<string>): Session {
    if lines == [] then s
    else Dispatch(Apply(s, lines[..|lines| - 1]), lines[|lines| - 1])
  }

  /** The session after `check_network_messages` has handled `msg`. */
  function Receive(s: Session, msg: string): Session {
    Apply(s, Incoming(msg))
  }

  /** One more line: it is dispatched unless it is empty. */
  lemma PreparedStep(lines: seq<string>, i: nat)
    requires i < |lines|
    ensures lines[i] == [] ==> Prepared(lines[..i + 1]) == Prepared(lines[..i])
    ensures lines[i] != [] ==> Prepared(lines[..i + 1]) == Prepared(lines[..i]) + [StripCR(lines[i])]
  {
    assert lines[..i + 1][..i] == lines[..i];
    assert Prepared(lines[..i]) + [] == Prepared(lines[..i]);
  }

  /** Dispatching one more line. */
  lemma ApplyStep(s: Session, lines: seq<string>, line: string)
    ensures Apply(s, lines + [line]) == Dispatch(Apply(s, lines), line)
  {
    assert (lines + [line])[..|lines|] == lines;
  }

  /** `v` is the session after the first `i` of `lines` were handled. */
  ghost predicate Handled(v: Session, s0: Session, lines: seq<string>, i: nat) {
    i <= |lines| && v == Apply(s0, Prepared(lines[..i]))
  }

  /** Handling line `i`: an empty one is skipped, the others are
      dispatched without their final '\r'. */
  lemma HandledStep(v: Session, s0: Session, lines: seq<string>, i: nat)
    requires Handled(v, s0, lines, i) && i < |lines|
    ensures lines[i] == [] ==> Handled(v, s0, lines, i + 1)
    ensures lines[i] != [] ==> Handled(Dispatch(v, StripCR(lines[i])), s0, lines, i + 1)
  {
    PreparedStep(lines, i);
    if lines[i] != [] {
      ApplyStep(s0, Prepared(lines[..i]), StripCR(lines[i]));
    }
  }

  lemma {:induction false} PreparedAppend(a: seq<string>, b: seq<string>)
    ensures Prepared(a + b) == Prepared(a) + Prepared(b)
    decreases |b|
  {
    if b != [] {
      var init := b[..|b| - 1];
      assert (a + b)[..|a + b| - 1] == a + init;
      PreparedAppend(a, init);
    } else {
      assert a + b == a;
    }
  }

  lemma {:induction false} ApplyAppend(s: Session, a: seq<string>, b: seq<string>)
    ensures Apply(s, a + b) == Apply(Apply(s, a), b)
    decreases |b|
  {
    if b != [] {
      var init := b[..|b| - 1];
      assert (a + b)[..|a + b| - 1] == a + init;
      ApplyAppend(s, a, init);
    } else {
      assert a + b == a;
    }
  }

  /** Two chunks joined by a newline act as the first chunk followed by
      the second: lines are dispatched strictly in order and no state but
      the session carries from one line to the next. */
  lemma ReceiveConcat(s: Session, x: string, y: string)
    ensures Receive(s, x + "\n" + y) == Receive(Receive(s, x), y)
  {
    TokensConcat(x, y, '\n');
    TokensDelimEnd(x, '\n');
    var tx := Tokens(x, '\n');
    var extra: seq<string> := if x == [] || x[|x| - 1] == '\n' then [""] else [];
    PreparedAppend(tx + extra, Tokens(y, '\n'));
    PreparedAppend(tx, extra);
    assert Prepared(extra) == [];
    assert Incoming(x + "\n" + y) == Incoming(x) + Incoming(y);
    ApplyAppend(s, Incoming(x), Incoming(y));
  }

  /** A chunk without a newline is one line: unless it is empty it is
      dispatched once, less a final '\r'. */
  lemma ReceiveLine(s: Session, line: string)
    requires '\n' !in line
    ensures Receive(s, line) == if line == [] then s else Dispatch(s, StripCR(line))
  {
    if line != [] {
      TokensLast(line, '\n');
      PreparedOne(line);
      ApplyOne(s, StripCR(line));
    }
  }

  lemma PreparedOne(line: string)
    requires line != []
    ensures Prepared([line]) == [StripCR(line)]
  {
    assert [line][..0] == [];
  }

  lemma ApplyOne(s: Session, line: string)
    ensures Apply(s, [line]) == Dispatch(s, line)
  {
    assert [line][..0] == [];
  }

  /** What the click on (row, col) hands to `send_move`: the square's
      notation when it is this player's turn and the move is legal for
      their piece, and nothing otherwise. */
  function Clicked(s: Session, row: int, col: int): (sent: seq<string>)
    ensures |sent| <= 1
    ensures sent != [] <==> s.isMyTurn && Legal(s.board, row, col, s.myPiece)
    ensures sent != [] ==> ParseMove(sent[0], row, col) == Parsed(true, row, col)
  {
    if s.isMyTurn && Legal(s.board, row, col, s.myPiece) then
      PositionRoundTrip(row, col, row, col);
      [PositionToString(row, col)]
    else []
  }

  /** The application state `app_data`, without its widgets. */
  class AppData {
    const game: Game
    const network: NetworkClient
    var isMyTurn: bool
    var myPiece: char
    var myName: string
    var opponentName: string
    var history: seq<string>

    /** The game's counts match its board, and the connection holds the
        same opponent name and piece as the application. */
    ghost predicate Valid()
      reads this, game, game.board, network
    {
      game.Valid()
      && network.opponentName == opponentName
      && network.myPiece == myPiece
    }

    /** The session as a value. */
    ghost function View(): Session
      reads this, game, game.board
      requires game.WellFormed()
    {
      Session(game.Cells(), isMyTurn, myPiece, myName, opponentName, history)
    }

    /** `main`: a fresh game and connection, not this player's turn and no
        piece yet. */
    constructor ()
      ensures Valid() && fresh(game) && fresh(game.board) && fresh(network)
      ensures View() == Session(Initial(), false, ' ', "", "", [])
      ensures !network.IsConnected() && network.sent == []
    {
      game := new Game();
      network := new NetworkClient();
      isMyTurn := false;
      myPiece := ' ';
      myName := "";
      opponentName := "";
      history := [];
    }

    /** `on_connect_clicked` without its widgets: all three fields must be
        filled in; then the name is kept and the connection attempted,
        with `port` the value of the port field and `fd`, `addressOk` and
        `connectOk` the outcomes of the socket calls. */
    method OnConnectClicked(host: string, portText: string, port: int, name: string,
                            fd: int, addressOk: bool, connectOk: bool)
      requires Valid() && fd >= -1
      modifies this`myName, network
      ensures Valid()
      ensures host == "" || portText == "" || name == "" ==>
        myName == old(myName) && unchanged(network)
      ensures host != "" && portText != "" && name != "" ==>
        myName == name
        && (network.IsConnected() <==> fd >= 0 && addressOk && connectOk)
        && network.sent == old(network.sent) + (if network.IsConnected() then [name] else [])
    {
      if host == "" || portText == "" || name == "" {
        return;
      }
      myName := name;
      var ok := network.ConnectToServer(host, port, name, fd, addressOk, connectOk);
    }

    /** One line's branch of `check_network_messages`. */
    method DispatchLine(line: string)
      requires Valid()
      modifies this, game, game.board, network
      ensures Valid()
      ensures View() == Dispatch(old(View()), line)
      ensures network.sock == old(network.sock) && network.connected == old(network.connected)
      ensures network.sent == old(network.sent)
    {
      var cmd, parts := network.ParseMessage(line);
      if cmd == "WAIT" {
      } else if cmd == "START" && |parts| >= 3 {
        opponentName := parts[1];
        myPiece := FirstChar(parts[2]);
        network.opponentName := opponentName;
        network.myPiece := myPiece;
      } else if cmd == "YOUR_TURN" && |parts| >= 2 {
        game.SetBoardState(parts[1]);
        isMyTurn := true;
      } else if cmd == "OPPONENT_TURN" && |parts| >= 2 {
        game.SetBoardState(parts[1]);
        isMyTurn := false;
      } else if cmd == "MOVE_OK" && |parts| >= 2 {
        history := history + [myName + ": " + parts[1]];
        isMyTurn := false;
      } else if cmd == "INVALID" && |parts| >= 2 {
      } else if cmd == "OPPONENT_DISCONNECT" {
      } else if cmd == "END" && |parts| >= 3 {
        game.SetBoardState(parts[2]);
      }
    }

    /** `check_network_messages`, with `outcome` what `recv` reported:
        while connected, the received text is split into lines and each
        line is dispatched in order. */
    method CheckNetworkMessages(outcome: Recv)
      requires Valid()
      requires outcome.Data? ==> 0 < |outcome.bytes| <= 1023
      modifies this, game, game.board, network
      ensures Valid()
      ensures View() == Receive(old(View()), Received(old(network.IsConnected()), outcome))
      ensures network.sock == old(network.sock) && network.sent == old(network.sent)
      ensures old(network.IsConnected()) ==> network.connected == (outcome.WouldBlock? || outcome.Data?)
      ensures !old(network.IsConnected()) ==> network.connected == old(network.connected)
    {
      if !network.IsConnected() {
        return;
      }
      var msg := network.ReceiveMessage(outcome);
      if msg == "" {
        return;
      }
      var lines := Split(msg, '\n');
      DispatchLines(lines);
    }

    /** The line loop of `check_network_messages`: every line of the
        chunk, in order; empty lines are skipped and one final '\r' is
        dropped. */
    method DispatchLines(lines: seq<string>)
      requires Valid()
      modifies this, game, game.board, network
      ensures Valid()
      ensures View() == Apply(old(View()), Prepared(lines))
      ensures network.sock == old(network.sock) && network.connected == old(network.connected)
      ensures network.sent == old(network.sent)
    {
      ghost var s0 := View();
      var i := 0;
      while i < |lines|
        invariant Valid()
        invariant Handled(View(), s0, lines, i)
        invariant network.sock == old(network.sock) && network.connected == old(network.connected)
        invariant network.sent == old(network.sent)
        decreases |lines| - i
      {
        HandledStep(View(), s0, lines, i);
        if lines[i] != "" {
          DispatchLine(StripCR(lines[i]));
        }
        i := i + 1;
      }
      assert lines[..|lines|] == lines;
    }

    /** `on_board_button_clicked`: the move is sent only on this player's
        turn, only when it is legal for their piece, and only while
        connected. */
    method OnBoardButtonClicked(row: int, col: int)
      requires Valid()
      modifies network`sent
      ensures network.sent == old(network.sent) + (if network.IsConnected() then Clicked(View(), row, col) else [])
    {
      if !isMyTurn {
        return;
      }
      var valid := game.IsValidMove(row, col, myPiece);
      if !valid {
        return;
      }
      var move := PositionToString(row, col);
      network.SendMove(move);
    }
  }
}
