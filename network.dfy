/** The client's connection object: the `getline` tokeniser, the
    command parser and the socket/connection flags. The socket system
    calls are not modelled; their outcomes are parameters. */
module Network {

  /** The index of the first `ch` in `s`, or |s| when there is none. */
  function IndexOf(s: string, ch: char): (i: nat)
    ensures i <= |s|
    ensures forall j :: 0 <= j < i ==> s[j] != ch
    ensures ch !in s[..i]
    ensures i < |s| ==> s[i] == ch
  {
    if s == [] then 0
    else if s[0] == ch then 0
    else
      var i := 1 + IndexOf(s[1..], ch);
      assert s[..i] == [s[0]] + s[1..][..i - 1];
      i
  }

  /** What repeated `std::getline(stream, token, delim)` yields: each read
      takes the text up to the next delimiter, which it consumes; a read
      that starts at the end of the text fails. So a final delimiter
      produces no empty token, and the empty text produces no token. */
  function Tokens(s: string, delim: char): seq<string>
    decreases |s|
  {
    if s == [] then []
    else
      var i := IndexOf(s, delim);
      if i == |s| then [s] else [s[..i]] + Tokens(s[i + 1..], delim)
  }

  /** The tokens put back together, one delimiter between neighbours. */
  function Join(ts: seq<string>, delim: char): string {
    if ts == [] then []
    else if |ts| == 1 then ts[0]
    else ts[0] + [delim] + Join(ts[1..], delim)
  }

  /** One read of `getline`: when the first delimiter of a non-empty text
      is at `i`, the first token is the text before it. */
  lemma TokensAt(s: string, delim: char, i: nat)
    requires s != [] && i <= |s| && (i < |s| ==> s[i] == delim)
    requires forall j :: 0 <= j < i ==> s[j] != delim
    ensures Tokens(s, delim) == [s[..i]] + (if i < |s| then Tokens(s[i + 1..], delim) else [])
  {
    assert IndexOf(s, delim) == i;
    assert s[..|s|] == s;
  }

  /** A delimiter-free head followed by the delimiter is the first
      token. */
  lemma TokensCons(head: string, rest: string, delim: char)
    requires delim !in head
    ensures Tokens(head + [delim] + rest, delim) == [head] + Tokens(rest, delim)
  {
    var s := head + [delim] + rest;
    forall j | 0 <= j < |head| ensures s[j] != delim {
      assert s[j] == head[j] && head[j] in head;
    }
    TokensAt(s, delim, |head|);
    assert s[..|head|] == head && s[|head| + 1..] == rest;
  }

  /** A non-empty delimiter-free text is a single token. */
  lemma TokensLast(s: string, delim: char)
    requires s != [] && delim !in s
    ensures Tokens(s, delim) == [s]
  {
    forall j | 0 <= j < |s| ensures s[j] != delim {
      assert s[j] in s;
    }
    TokensAt(s, delim, |s|);
    assert s[..|s|] == s;
  }

  /** A delimiter after `x` splits the text into the tokens of `x`
      followed by an empty one, when `x` is empty or already ends in the
      delimiter, and into the tokens of `x` otherwise. */
  lemma {:induction false} TokensDelimEnd(x: string, d: char)
    ensures Tokens(x + [d], d) == Tokens(x, d) + (if x == [] || x[|x| - 1] == d then [""] else [])
    decreases |x|
  {
    if x == [] {
      TokensCons([], [], d);
      assert [] + [d] + [] == x + [d];
    } else {
      var i := IndexOf(x, d);
      if i == |x| {
        assert x[..|x|] == x && x[|x| - 1] in x;
        TokensCons(x, [], d);
        assert x + [d] + [] == x + [d];
        TokensLast(x, d);
      } else {
        var head, rest := x[..i], x[i + 1..];
        assert x == head + [d] + rest;
        TokensDelimEnd(rest, d);
        TokensDelimEndStep(head, rest, d);
      }
    }
  }

  /** The step of `TokensDelimEnd`, past the first delimiter. */
  lemma TokensDelimEndStep(head: string, rest: string, d: char)
    requires d !in head
    requires Tokens(rest + [d], d) == Tokens(rest, d) + (if rest == [] || rest[|rest| - 1] == d then [""] else [])
    ensures var x := head + [d] + rest;
      Tokens(x + [d], d) == Tokens(x, d) + (if x[|x| - 1] == d then [""] else [])
  {
    var x := head + [d] + rest;
    var extra: seq<string> := if rest == [] || rest[|rest| - 1] == d then [""] else [];
    assert x + [d] == head + [d] + (rest + [d]) by {
      AppendAssoc(head + [d], rest, [d]);
    }
    assert Tokens(x + [d], d) == [head] + (Tokens(rest, d) + extra) by {
      TokensCons(head, rest + [d], d);
    }
    assert Tokens(x, d) == [head] + Tokens(rest, d) by {
      TokensCons(head, rest, d);
    }
    AppendAssoc([head], Tokens(rest, d), extra);
  }

  /** Text after a delimiter splits on its own. */
  lemma {:induction false} TokensConcat(x: string, y: string, d: char)
    ensures Tokens(x + [d] + y, d) == Tokens(x + [d], d) + Tokens(y, d)
    decreases |x|
  {
    var i := IndexOf(x, d);
    if i == |x| {
      assert x[..|x|] == x;
      TokensCons(x, y, d);
      TokensCons(x, [], d);
      assert x + [d] + [] == x + [d];
    } else {
      var head, rest := x[..i], x[i + 1..];
      assert x == head + [d] + rest;
      TokensConcat(rest, y, d);
      TokensConcatStep(head, rest, y, d);
    }
  }

  /** The step of `TokensConcat`, past the first delimiter. */
  lemma TokensConcatStep(head: string, rest: string, y: string, d: char)
    requires d !in head
    requires Tokens(rest + [d] + y, d) == Tokens(rest + [d], d) + Tokens(y, d)
    ensures Tokens(head + [d] + rest + [d] + y, d) == Tokens(head + [d] + rest + [d], d) + Tokens(y, d)
  {
    var a := head + [d];
    assert a + rest + [d] + y == a + (rest + [d] + y) by {
      AppendAssoc(a + rest, [d], y);
      AppendAssoc(a, rest, [d] + y);
      AppendAssoc(rest, [d], y);
    }
    assert a + rest + [d] == a + (rest + [d]) by {
      AppendAssoc(a, rest, [d]);
    }
    assert Tokens(a + (rest + [d] + y), d) == [head] + (Tokens(rest + [d], d) + Tokens(y, d)) by {
      TokensCons(head, rest + [d] + y, d);
    }
    assert Tokens(a + (rest + [d]), d) == [head] + Tokens(rest + [d], d) by {
      TokensCons(head, rest + [d], d);
    }
    AppendAssoc([head], Tokens(rest + [d], d), Tokens(y, d));
  }

  lemma AppendAssoc<T>(a: seq<T>, b: seq<T>, c: seq<T>)
    ensures a + b + c == a + (b + c)
  {
  }

  /** No token contains the delimiter. */
  lemma {:induction false} TokensFree(s: string, delim: char)
    ensures forall t :: t in Tokens(s, delim) ==> delim !in t
    decreases |s|
  {
    if s != [] {
      var i := IndexOf(s, delim);
      if i < |s| {
        TokensFree(s[i + 1..], delim);
      }
    }
  }

  /** Joining the tokens gives the text back, less one final delimiter. */
  lemma {:induction false} JoinTokens(s: string, delim: char)
    ensures Join(Tokens(s, delim), delim)
         == if s != [] && s[|s| - 1] == delim then s[..|s| - 1] else s
    decreases |s|
  {
    if s != [] {
      var i := IndexOf(s, delim);
      if i == |s| {
        TokensLast(s, delim);
      } else {
        JoinTokens(s[i + 1..], delim);
        JoinTokensStep(s, delim, i);
      }
    }
  }

  /** The step of `JoinTokens`: from the text after the first delimiter
      to the whole text. */
  lemma JoinTokensStep(s: string, delim: char, i: nat)
    requires i == IndexOf(s, delim) < |s|
    requires var rest := s[i + 1..];
      Join(Tokens(rest, delim), delim)
      == if rest != [] && rest[|rest| - 1] == delim then rest[..|rest| - 1] else rest
    ensures Join(Tokens(s, delim), delim)
         == if s[|s| - 1] == delim then s[..|s| - 1] else s
  {
    var head, rest := s[..i], s[i + 1..];
    assert s == head + [delim] + rest;
    TokensCons(head, rest, delim);
    if rest == [] {
      assert s[..|s| - 1] == head;
    } else {
      JoinCons(head, Tokens(rest, delim), delim);
      if rest[|rest| - 1] == delim {
        assert s[..|s| - 1] == head + [delim] + rest[..|rest| - 1];
      }
    }
  }

  lemma JoinCons(head: string, tail: seq<string>, delim: char)
    requires tail != []
    ensures Join([head] + tail, delim) == head + [delim] + Join(tail, delim)
  {
    assert ([head] + tail)[1..] == tail;
  }

  /** Tokens without the delimiter, the last of them not empty, survive a
      join and a split unchanged. */
  lemma {:induction false} TokensJoin(ts: seq<string>, delim: char)
    requires forall t :: t in ts ==> delim !in t
    requires ts != [] ==> ts[|ts| - 1] != []
    ensures Tokens(Join(ts, delim), delim) == ts
    decreases |ts|
  {
    if |ts| == 1 {
      assert ts[0] in ts;
      TokensLast(ts[0], delim);
    } else if |ts| > 1 {
      var tail := ts[1..];
      assert ts == [ts[0]] + tail && ts[0] in ts;
      JoinCons(ts[0], tail, delim);
      TokensCons(ts[0], Join(tail, delim), delim);
      assert forall t :: t in tail ==> t in ts;
      TokensJoin(tail, delim);
    }
  }

  /** `split("a::b", ':')` keeps the empty middle token; `split("", ':')`
      is empty and a trailing ':' adds nothing. */
  lemma TokensExamples()
    ensures Tokens("a::b", ':') == ["a", "", "b"]
    ensures Tokens("", ':') == []
    ensures Tokens("a:", ':') == ["a"]
  {
    assert Tokens("a::b", ':') == ["a", "", "b"] by {
      assert "a" + [':'] + ":b" == "a::b" && "" + [':'] + "b" == ":b";
      TokensCons("a", ":b", ':');
      TokensCons("", "b", ':');
      TokensLast("b", ':');
    }
    assert Tokens("a:", ':') == ["a"] by {
      assert "a" + [':'] + "" == "a:";
      TokensCons("a", "", ':');
    }
  }

  /** One `getline` call from position `pos`: the text up to the next
      delimiter or the end, and the position after the delimiter. */
  method GetLine(s: string, pos: nat, delim: char) returns (token: string, next: nat)
    requires pos < |s|
    ensures pos < next <= |s|
    ensures Tokens(s[pos..], delim) == [token] + Tokens(s[next..], delim)
  {
    var end := pos;
    token := "";
    while end < |s| && s[end] != delim
      invariant pos <= end <= |s|
      invariant token == s[pos..end]
      invariant delim !in token
    {
      token := token + [s[end]];
      end := end + 1;
    }
    if end < |s| {
      next := end + 1;
      assert s[pos..] == token + [delim] + s[next..];
      TokensCons(token, s[next..], delim);
    } else {
      next := end;
      assert s[pos..] == token != [] && s[next..] == [];
      TokensLast(token, delim);
      assert Tokens(s[next..], delim) == [];
    }
  }

  /** `split`: the `getline` loop, which stops at the first call that
      finds no text left. */
  method Split(s: string, delim: char) returns (tokens: seq<string>)
    ensures tokens == Tokens(s, delim)
  {
    tokens := [];
    var pos := 0;
    while pos < |s|
      invariant 0 <= pos <= |s|
      invariant tokens + Tokens(s[pos..], delim) == Tokens(s, delim)
      decreases |s| - pos
    {
      var token, next := GetLine(s, pos, delim);
      tokens := tokens + [token];
      pos := next;
    }
    assert s[pos..] == [];
  }

  /** The command of a message: its first ':'-separated field, or the
      empty string when the message has none. */
  function Command(parts: seq<string>): string {
    if parts == [] then "" else parts[0]
  }

  /** The command is the text before the first ':'. */
  lemma CommandPrefix(msg: string)
    ensures Command(Tokens(msg, ':')) == msg[..IndexOf(msg, ':')]
  {
  }

  /** What `recv` reported: no data yet, an error, the peer closing the
      connection, or some bytes. */
  datatype Recv = WouldBlock | Failed | Closed | Data(bytes: string)

  /** The text that `std::string(buffer)` keeps from the bytes read: the
      buffer is read as a C string, so it ends at the first NUL. */
  function Delivered(bytes: string): (msg: string)
    ensures msg <= bytes && '\0' !in msg
    ensures |msg| < |bytes| ==> bytes[|msg|] == '\0'
    ensures '\0' !in bytes ==> msg == bytes
  {
    var i := IndexOf(bytes, '\0');
    assert '\0' !in bytes ==> i == |bytes|;
    bytes[..i]
  }

  /** The connection: the socket descriptor (-1 when there is none), the
      connected flag, the names and the player's piece. `sent` records,
      in order, every string handed to `send`. */
  class NetworkClient {
    var sock: int
    var connected: bool
    var playerName: string
    var opponentName: string
    var myPiece: char
    ghost var sent: seq<string>

    /** No socket, not connected, no piece yet. */
    constructor ()
      ensures sock == -1 && !connected && myPiece == ' '
      ensures playerName == "" && opponentName == "" && sent == []
    {
      sock := -1;
      connected := false;
      playerName := "";
      opponentName := "";
      myPiece := ' ';
      sent := [];
    }

    /** `is_connected`: the flag is set and there is a socket. Neither
        alone is enough: a failed connect can leave the flag set without
        a socket. */
    predicate IsConnected(): (r: bool)
      reads this
      ensures r ==> connected
      ensures sock == -1 ==> !r
    {
      connected && sock != -1
    }

    /** `connect_to_server`, with `fd` what `socket` returned (a descriptor,
        or -1) and the outcomes of `inet_pton` and `connect`. On success the
        player's name is sent. A failure does not clear `connected`, but
        leaves no socket, so the client is not connected afterwards. */
    method ConnectToServer(host: string, port: int, name: string, fd: int, addressOk: bool, connectOk: bool)
      returns (ok: bool)
      requires fd >= -1
      modifies this
      ensures ok <==> fd >= 0 && addressOk && connectOk
      ensures playerName == name && opponentName == old(opponentName) && myPiece == old(myPiece)
      ensures ok ==> sock == fd && connected && IsConnected() && sent == old(sent) + [name]
      ensures !ok ==> sock == -1 && connected == old(connected) && !IsConnected() && sent == old(sent)
    {
      playerName := name;
      sock := fd;
      if sock < 0 {
        return false;
      }
      if !addressOk {
        sock := -1;
        return false;
      }
      if !connectOk {
        sock := -1;
        return false;
      }
      connected := true;
      sent := sent + [playerName];
      return true;
    }

    /** `disconnect`: no socket and not connected, whatever the state
        before; on a client already disconnected it changes nothing. */
    method Disconnect()
      modifies this`sock, this`connected
      ensures sock == -1 && !connected && !IsConnected()
      ensures old(sock) == -1 && !old(connected) ==> unchanged(this)
    {
      if sock != -1 {
        sock := -1;
      }
      connected := false;
    }

    /** `send_move`: the move goes out only while connected. */
    method SendMove(move: string)
      modifies this`sent
      ensures sent == if IsConnected() then old(sent) + [move] else old(sent)
    {
      if IsConnected() {
        sent := sent + [move];
      }
    }

    /** `receive_message`, with `outcome` what `recv` reported. Reads of
        at most 1023 bytes fill a 1024-byte buffer that ends in NUL. */
    method ReceiveMessage(outcome: Recv) returns (msg: string)
      requires outcome.Data? ==> 0 < |outcome.bytes| <= 1023
      modifies this`connected
      ensures msg == Received(old(IsConnected()), outcome)
      ensures !old(IsConnected()) ==> connected == old(connected)
      ensures old(IsConnected()) ==> connected == (outcome.WouldBlock? || outcome.Data?)
    {
      if !IsConnected() {
        return "";
      }
      match outcome {
        case WouldBlock =>
          return "";
        case Failed =>
          connected := false;
          return "";
        case Closed =>
          connected := false;
          return "";
        case Data(bytes) =>
          msg := Delivered(bytes);
      }
    }

    /** `parse_message`: the fields of `msg` and its command. */
    method ParseMessage(msg: string) returns (cmd: string, parts: seq<string>)
      ensures parts == Tokens(msg, ':') && cmd == Command(parts)
      ensures cmd == msg[..IndexOf(msg, ':')]
    {
      parts := Split(msg, ':');
      if |parts| == 0 {
        return "", parts;
      }
      cmd := parts[0];
      CommandPrefix(msg);
    }
  }

  /** The text `receive_message` returns: data only while connected, and
      then only the bytes before the first NUL. */
  function Received(live: bool, outcome: Recv): (msg: string)
    ensures !live || !outcome.Data? ==> msg == ""
    ensures live && outcome.Data? ==> msg <= outcome.bytes && '\0' !in msg
    ensures live && outcome.Data? ==> |msg| < |outcome.bytes| ==> outcome.bytes[|msg|] == '\0'
    ensures live && outcome.Data? ==> msg == Delivered(outcome.bytes)
  {
    if live && outcome.Data? then Delivered(outcome.bytes) else ""
  }
}
