/**
 * The wire protocol of the FD server: header and key codec, the serving loop
 * and the client's side of a request (pkg/tapmanager/fdserver.go).
 */
module FdProtocol {
  import opened Common
  import opened Endian

  const MAGIC := 0x42424242
  const CMD_ADD := 0
  const CMD_RELEASE := 1
  const CMD_GET := 2
  const CMD_RECOVER := 3
  const RESPONSE := 0x80
  const CMD_ERROR := 0xff
  const KEY_SIZE := 64
  const HEADER_SIZE := 77
  const SPACE: byte := 32
  const U32 := 0x1_0000_0000

  type u32 = x: int | 0 <= x < 0x1_0000_0000

  /** Conversion of a length to the 32-bit size field. */
  function Wrap32(n: nat): u32 {
    if n < 0x1_0000_0000 then n else n % 0x1_0000_0000
  }

  datatype Header = Header(magic: u32, command: byte, dataSize: u32, oobSize: u32, key: Bytes)

  // ----- Headers ----------------------------------------------------------

  function EncodeHeader(h: Header): (b: Bytes)
    requires |h.key| == KEY_SIZE
    ensures |b| == HEADER_SIZE
  {
    PutBE(h.magic, 4) + [h.command] + PutBE(h.dataSize, 4) + PutBE(h.oobSize, 4) + h.key
  }

  function GetU32(b: Bytes): u32
    requires |b| == 4
  {
    Widths();
    GetBE(b)
  }

  function DecodeHeader(b: Bytes): (h: Header)
    requires |b| == HEADER_SIZE
    ensures |h.key| == KEY_SIZE
  {
    Header(GetU32(b[..4]), b[4], GetU32(b[5..9]), GetU32(b[9..13]), b[13..])
  }

  /** Headers and blocks of 77 bytes correspond one to one. */
  lemma HeaderRoundTrip(h: Header)
    requires |h.key| == KEY_SIZE
    ensures DecodeHeader(EncodeHeader(h)) == h
  {
    Widths();
    var b := EncodeHeader(h);
    assert b[..4] == PutBE(h.magic, 4);
    assert b[5..9] == PutBE(h.dataSize, 4);
    assert b[9..13] == PutBE(h.oobSize, 4);
    assert b[13..] == h.key;
    GetPutBE(h.magic, 4);
    GetPutBE(h.dataSize, 4);
    GetPutBE(h.oobSize, 4);
  }

  /** Where the fields are: magic, command, the two sizes and the key, the numbers most significant octet first. */
  lemma HeaderLayout(h: Header)
    requires |h.key| == KEY_SIZE
    ensures var b := EncodeHeader(h);
            && GetBE(b[0..4]) == h.magic && b[4] == h.command
            && GetBE(b[5..9]) == h.dataSize && GetBE(b[9..13]) == h.oobSize && b[13..77] == h.key
  {
    HeaderRoundTrip(h);
    assert EncodeHeader(h)[13..77] == EncodeHeader(h)[13..];
  }

  lemma HeaderBytesRoundTrip(b: Bytes)
    requires |b| == HEADER_SIZE
    ensures EncodeHeader(DecodeHeader(b)) == b
  {
    PutGetBE(b[..4]);
    PutGetBE(b[5..9]);
    PutGetBE(b[9..13]);
    assert b == b[..4] + [b[4]] + b[5..9] + b[9..13] + b[13..];
  }

  // ----- Keys -------------------------------------------------------------

  /** A key is cut or padded with spaces to 64 bytes. */
  function FdKey(key: Bytes): (r: Bytes)
    ensures |r| == KEY_SIZE
  {
    if |key| >= KEY_SIZE then key[..KEY_SIZE] else key + Repeat(SPACE, KEY_SIZE - |key|)
  }

  method FillKey(key: Bytes) returns (r: array<byte>)
    ensures fresh(r) && r[..] == FdKey(key)
    ensures r.Length == 64 && forall k :: 0 <= k < 64 ==> r[k] == if k < |key| then key[k] else 32
  {
    r := new byte[KEY_SIZE];
    for n := 0 to KEY_SIZE
      invariant r.Length == KEY_SIZE
      invariant forall k :: 0 <= k < n ==> r[k] == if k < |key| then key[k] else SPACE
    {
      r[n] := if n < |key| then key[n] else SPACE;
    }
    assert r[..] == FdKey(key);
  }

  predicate AsciiSpace(a: byte) {
    9 <= a <= 13 || a == 32
  }

  /** U+0085 and U+00A0 in UTF-8. */
  predicate WideSpace2(a: byte, b: byte) {
    a == 0xC2 && (b == 0x85 || b == 0xA0)
  }

  /** The white space characters that take three bytes in UTF-8. */
  predicate WideSpace3(a: byte, b: byte, c: byte) {
    || (a == 0xE1 && b == 0x9A && c == 0x80)
    || (a == 0xE2 && b == 0x80 && (0x80 <= c <= 0x8A || c == 0xA8 || c == 0xA9 || c == 0xAF))
    || (a == 0xE2 && b == 0x81 && c == 0x9F)
    || (a == 0xE3 && b == 0x80 && c == 0x80)
  }

  /** Length of the white space character at the start of a string, or 0. */
  function LeadingSpace(s: Bytes): (n: nat)
    ensures n <= |s|
  {
    if |s| >= 1 && AsciiSpace(s[0]) then 1
    else if |s| >= 2 && WideSpace2(s[0], s[1]) then 2
    else if |s| >= 3 && WideSpace3(s[0], s[1], s[2]) then 3
    else 0
  }

  /** Length of the white space character at the end of a string, or 0. */
  function TrailingSpace(s: Bytes): (n: nat)
    ensures n <= |s|
  {
    var l := |s|;
    if l >= 1 && AsciiSpace(s[l - 1]) then 1
    else if l >= 2 && WideSpace2(s[l - 2], s[l - 1]) then 2
    else if l >= 3 && WideSpace3(s[l - 3], s[l - 2], s[l - 1]) then 3
    else 0
  }

  function TrimLeft(s: Bytes): (r: Bytes)
    ensures LeadingSpace(r) == 0 && |r| <= |s|
  {
    if LeadingSpace(s) == 0 then s else TrimLeft(s[LeadingSpace(s)..])
  }

  function TrimRight(s: Bytes): (r: Bytes)
    ensures TrailingSpace(r) == 0 && |r| <= |s| && r == s[..|r|]
  {
    if TrailingSpace(s) == 0 then s else TrimRight(s[..|s| - TrailingSpace(s)])
  }

  /** strings.TrimSpace */
  function TrimSpace(s: Bytes): Bytes {
    TrimRight(TrimLeft(s))
  }

  /** A key that fits and is not surrounded by white space. */
  predicate Clean(key: Bytes) {
    |key| <= KEY_SIZE && LeadingSpace(key) == 0 && TrailingSpace(key) == 0
  }

  lemma TrimRightDropsSpace(t: Bytes)
    ensures TrimRight(t + [SPACE]) == TrimRight(t)
  {
    assert (t + [SPACE])[..|t|] == t;
  }

  lemma {:induction false} TrimRightPadding(key: Bytes, n: nat)
    requires TrailingSpace(key) == 0
    ensures TrimRight(key + Repeat(SPACE, n)) == key
  {
    if n == 0 {
      assert key + Repeat(SPACE, n) == key;
    } else {
      assert key + Repeat(SPACE, n) == key + Repeat(SPACE, n - 1) + [SPACE];
      TrimRightDropsSpace(key + Repeat(SPACE, n - 1));
      TrimRightPadding(key, n - 1);
    }
  }

  lemma {:induction false} TrimLeftPadding(n: nat)
    ensures TrimLeft(Repeat(SPACE, n)) == []
  {
    if n > 0 {
      assert Repeat(SPACE, n)[1..] == Repeat(SPACE, n - 1);
      TrimLeftPadding(n - 1);
    }
  }

  /** The server reads back the key that the client wrote exactly when the key is clean. */
  lemma KeyRoundTrip(key: Bytes)
    ensures TrimSpace(FdKey(key)) == key <==> Clean(key)
  {
    if Clean(key) {
      var pad := KEY_SIZE - |key|;
      assert FdKey(key) == key + Repeat(SPACE, pad);
      if key == [] {
        assert FdKey(key) == Repeat(SPACE, KEY_SIZE);
        TrimLeftPadding(KEY_SIZE);
      } else {
        assert LeadingSpace(FdKey(key)) == 0;
        TrimRightPadding(key, pad);
      }
    } else if TrimSpace(FdKey(key)) == key {
      assert false;
    }
  }

  // ----- Requests, the serving loop and replies ---------------------------

  datatype Request =
    | Add(key: Bytes, data: Bytes)
    | Release(key: Bytes)
    | Get(key: Bytes)
    | Recover(key: Bytes, data: Bytes)

  function CommandOf(r: Request): byte {
    match r
    case Add(_, _) => CMD_ADD
    case Release(_) => CMD_RELEASE
    case Get(_) => CMD_GET
    case Recover(_, _) => CMD_RECOVER
  }

  function PayloadOf(r: Request): Bytes {
    match r
    case Add(_, data) => data
    case Recover(_, data) => data
    case _ => []
  }

  /** The header of a request; the size field is 32 bits wide. */
  function HeaderOf(r: Request): (h: Header)
    ensures |h.key| == KEY_SIZE
  {
    Header(MAGIC, CommandOf(r), Wrap32(|PayloadOf(r)|), 0, FdKey(r.key))
  }

  /** What the client writes for a request. */
  function EncodeRequest(r: Request): Bytes {
    EncodeHeader(HeaderOf(r)) + PayloadOf(r)
  }

  function EncodeAll(rs: seq<Request>): Bytes {
    if rs == [] then [] else EncodeRequest(rs[0]) + EncodeAll(rs[1..])
  }

  /** What a handler made of a request. */
  datatype Answer = Success(data: Bytes, oob: Bytes) | Failure(message: Bytes)

  /** A reply: the header as it goes over the socket, then one message with data and rights. */
  datatype Reply = Reply(header: Bytes, data: Bytes, oob: Bytes)

  datatype End = Closed | BrokenHeader | BadMagic | WriteFailed

  datatype Session = Session(log: seq<Request>, replies: seq<Reply>, end: End)

  type Handler = (nat, Request) -> Answer

  function ErrorHeader(message: Bytes): (h: Header)
    ensures |h.key| == KEY_SIZE
  {
    Header(MAGIC, CMD_ERROR, Wrap32(|message|), 0, Repeat(0, KEY_SIZE))
  }

  function ErrorReply(message: Bytes): Reply {
    Reply(EncodeHeader(ErrorHeader(message)), message, [])
  }

  function ResponseHeader(command: byte, key: Bytes, data: Bytes, oob: Bytes): (h: Header)
    requires command < RESPONSE && |key| == KEY_SIZE
    ensures |h.key| == KEY_SIZE
  {
    Header(MAGIC, command + RESPONSE, Wrap32(|data|), Wrap32(|oob|), key)
  }

  function MakeReply(command: byte, key: Bytes, a: Answer): Reply
    requires command < RESPONSE && |key| == KEY_SIZE
  {
    match a
    case Failure(message) => ErrorReply(message)
    case Success(data, oob) => Reply(EncodeHeader(ResponseHeader(command, key, data, oob)), data, oob)
  }

  const PAYLOAD_ERROR: Bytes := [1]
  const COMMAND_ERROR: Bytes := [2]

  /** What one round of the loop takes from the connection after the header, and what it asks the handlers. */
  datatype Round = Ask(request: Request, rest: Bytes) | Complain(message: Bytes, rest: Bytes)

  function ReadRound(h: Header, rest: Bytes): (round: Round)
    ensures |round.rest| <= |rest|
  {
    var key := TrimSpace(h.key);
    if h.command == CMD_ADD || h.command == CMD_RECOVER then
      if h.dataSize > |rest| then Complain(PAYLOAD_ERROR, [])
      else
        var data := rest[..h.dataSize];
        Ask(if h.command == CMD_ADD then Add(key, data) else Recover(key, data), rest[h.dataSize..])
    else if h.command == CMD_RELEASE then Ask(Release(key), rest)
    else if h.command == CMD_GET then Ask(Get(key), rest)
    else Complain(COMMAND_ERROR, rest)
  }

  function Prepend(log: seq<Request>, replies: seq<Reply>, s: Session): Session {
    Session(log + s.log, replies + s.replies, s.end)
  }

  lemma PrependTwice(log: seq<Request>, replies: seq<Reply>, log': seq<Request>, replies': seq<Reply>, s: Session)
    ensures Prepend(log, replies, Prepend(log', replies', s)) == Prepend(log + log', replies + replies', s)
  {
    assert log + (log' + s.log) == log + log' + s.log;
    assert replies + (replies' + s.replies) == replies + replies' + s.replies;
  }

  /** How many more replies can be written; None is no limit. */
  type Budget = Option<nat>

  function Spend(writes: Budget): Budget
    requires writes != Some(0)
  {
    if writes.None? then None else Some(writes.value - 1)
  }

  /** One turn of the loop: the end of the connection, or what was asked, the reply and the bytes to go on with. */
  datatype Turn = Stop(end: End) | Go(asked: seq<Request>, reply: Reply, rest: Bytes)

  type Turner = (Bytes, nat) -> Turn

  /** A turn that goes on has taken something. */
  ghost predicate Advances(turn: Turner) {
    forall b: Bytes, n: nat :: turn(b, n).Go? ==> |turn(b, n).rest| < |b|
  }

  /**
   * The loop over its turns; `n` counts the requests handled before. A reply
   * that cannot be written ends the connection, after its request was handled.
   */
  function ServeWith(input: Bytes, n: nat, writes: Budget, turn: Turner): Session
    requires Advances(turn)
    decreases |input|
  {
    match turn(input, n)
    case Stop(end) => Session([], [], end)
    case Go(asked, reply, rest) =>
      if writes == Some(0) then Session(asked, [], WriteFailed)
      else Prepend(asked, [reply], ServeWith(rest, n + |asked|, Spend(writes), turn))
  }

  /** One turn on the bytes that arrive. */
  function OneTurn(input: Bytes, n: nat, handle: Handler): Turn {
    if input == [] then Stop(Closed)
    else if |input| < HEADER_SIZE then Stop(BrokenHeader)
    else
      var h := DecodeHeader(input[..HEADER_SIZE]);
      if h.magic != MAGIC then Stop(BadMagic)
      else
        match ReadRound(h, input[HEADER_SIZE..])
        case Complain(message, rest) => Go([], ErrorReply(message), rest)
        case Ask(request, rest) => Go([request], MakeReply(h.command, h.key, handle(n, request)), rest)
  }

  function TurnOf(handle: Handler): Turner {
    (input: Bytes, n: nat) => OneTurn(input, n, handle)
  }

  lemma TurnAdvances(handle: Handler)
    ensures Advances(TurnOf(handle))
  {
  }

  /** serveConn */
  function Serve(input: Bytes, n: nat, writes: Budget, handle: Handler): Session {
    TurnAdvances(handle);
    ServeWith(input, n, writes, TurnOf(handle))
  }

  lemma PrependNothing(s: Session)
    ensures Prepend([], [], s) == s
  {
  }

  /** The loop itself. */
  method ServeLoop(input: Bytes, writes: Budget, turn: Turner) returns (s: Session)
    requires Advances(turn)
    ensures s == ServeWith(input, 0, writes, turn)
  {
    var rest, left := input, writes;
    var log: seq<Request> := [];
    var replies: seq<Reply> := [];
    PrependNothing(ServeWith(input, 0, writes, turn));
    while true
      invariant ServeWith(input, 0, writes, turn) == Prepend(log, replies, ServeWith(rest, |log|, left, turn))
      decreases |rest|
    {
      var t := turn(rest, |log|);
      if t.Stop? {
        return Session(log, replies, t.end);
      }
      if left == Some(0) {
        return Session(log + t.asked, replies, WriteFailed);
      }
      PrependTwice(log, replies, t.asked, [t.reply], ServeWith(t.rest, |log| + |t.asked|, Spend(left), turn));
      log, replies, left, rest := log + t.asked, replies + [t.reply], Spend(left), t.rest;
    }
  }

  /** serveConn: the loop with the turns of the FD server. */
  method ServeConn(input: Bytes, writes: Budget, handle: Handler) returns (s: Session)
    ensures s == Serve(input, 0, writes, handle)
  {
    TurnAdvances(handle);
    s := ServeLoop(input, writes, TurnOf(handle));
  }

  /** A request as clients make it: a clean key, and a payload whose size fits the header. */
  predicate WellFormed(r: Request) {
    Clean(r.key) && |PayloadOf(r)| < U32
  }

  lemma RequestBytes(r: Request, tail: Bytes)
    ensures var input := EncodeRequest(r) + tail;
            && |input| >= HEADER_SIZE
            && input[..HEADER_SIZE] == EncodeHeader(HeaderOf(r))
            && input[HEADER_SIZE..] == PayloadOf(r) + tail
  {
    CutConcat(EncodeHeader(HeaderOf(r)), PayloadOf(r), tail);
  }

  lemma RequestRound(r: Request, tail: Bytes)
    requires WellFormed(r)
    ensures ReadRound(HeaderOf(r), PayloadOf(r) + tail) == Ask(r, tail)
  {
    assert TrimSpace(FdKey(r.key)) == r.key by { KeyRoundTrip(r.key); }
    var rest := PayloadOf(r) + tail;
    assert rest[..|PayloadOf(r)|] == PayloadOf(r);
    assert rest[|PayloadOf(r)|..] == tail;
  }

  lemma TurnOfRequest(r: Request, tail: Bytes, n: nat, handle: Handler)
    requires WellFormed(r)
    ensures OneTurn(EncodeRequest(r) + tail, n, handle)
            == Go([r], MakeReply(CommandOf(r), FdKey(r.key), handle(n, r)), tail)
  {
    RequestBytes(r, tail);
    HeaderRoundTrip(HeaderOf(r));
    RequestRound(r, tail);
  }

  /**
   * What the loop does with any header, well-formed or not: a wrong magic
   * number ends the connection, an unknown command or a payload cut short is
   * complained about without asking the handlers, and the payload of Release
   * and Get is not read.
   */
  lemma TurnOfHeader(h: Header, tail: Bytes, n: nat, handle: Handler)
    requires |h.key| == KEY_SIZE
    ensures OneTurn(EncodeHeader(h) + tail, n, handle) ==
              if h.magic != MAGIC then Stop(BadMagic)
              else if h.command > CMD_RECOVER then Go([], ErrorReply(COMMAND_ERROR), tail)
              else if h.command == CMD_RELEASE || h.command == CMD_GET then
                var r := if h.command == CMD_GET then Get(TrimSpace(h.key)) else Release(TrimSpace(h.key));
                Go([r], MakeReply(h.command, h.key, handle(n, r)), tail)
              else if h.dataSize > |tail| then Go([], ErrorReply(PAYLOAD_ERROR), [])
              else
                var key, data := TrimSpace(h.key), tail[..h.dataSize];
                var r := if h.command == CMD_ADD then Add(key, data) else Recover(key, data);
                Go([r], MakeReply(h.command, h.key, handle(n, r)), tail[h.dataSize..])
  {
    var input := EncodeHeader(h) + tail;
    assert input[..HEADER_SIZE] == EncodeHeader(h) && input[HEADER_SIZE..] == tail;
    HeaderRoundTrip(h);
  }

  lemma ServeOne(r: Request, tail: Bytes, n: nat, writes: Budget, handle: Handler)
    requires WellFormed(r)
    ensures Serve(EncodeRequest(r) + tail, n, writes, handle) ==
              if writes == Some(0) then Session([r], [], WriteFailed)
              else Prepend([r], [MakeReply(CommandOf(r), FdKey(r.key), handle(n, r))],
                           Serve(tail, n + 1, Spend(writes), handle))
  {
    TurnAdvances(handle);
    TurnOfRequest(r, tail, n, handle);
    ServeWithGo(EncodeRequest(r) + tail, n, writes, TurnOf(handle), [r],
                MakeReply(CommandOf(r), FdKey(r.key), handle(n, r)), tail);
  }

  lemma ServeWithGo(input: Bytes, n: nat, writes: Budget, turn: Turner, asked: seq<Request>, reply: Reply, rest: Bytes)
    requires Advances(turn) && turn(input, n) == Go(asked, reply, rest)
    ensures ServeWith(input, n, writes, turn) ==
              if writes == Some(0) then Session(asked, [], WriteFailed)
              else Prepend(asked, [reply], ServeWith(rest, n + |asked|, Spend(writes), turn))
  {
  }

  /** The replies to a list of requests, one for each, from what the handlers answer. */
  function Replies(rs: seq<Request>, n: nat, handle: Handler): (replies: seq<Reply>)
    ensures |replies| == |rs|
  {
    if rs == [] then []
    else [MakeReply(CommandOf(rs[0]), FdKey(rs[0].key), handle(n, rs[0]))] + Replies(rs[1..], n + 1, handle)
  }

  /** The session of a list of requests when that many replies can be written. */
  function SessionOf(rs: seq<Request>, n: nat, writes: Budget, handle: Handler): Session {
    if writes.None? || writes.value >= |rs| then Session(rs, Replies(rs, n, handle), Closed)
    else Session(rs[..writes.value + 1], Replies(rs, n, handle)[..writes.value], WriteFailed)
  }

  lemma SessionOfMore(rs: seq<Request>, n: nat, writes: Budget, handle: Handler)
    requires rs != [] && writes != Some(0)
    ensures Prepend([rs[0]], [MakeReply(CommandOf(rs[0]), FdKey(rs[0].key), handle(n, rs[0]))],
                    SessionOf(rs[1..], n + 1, Spend(writes), handle))
            == SessionOf(rs, n, writes, handle)
  {
    assert [rs[0]] + rs[1..] == rs;
    if writes.Some? && writes.value < |rs| {
      var k := writes.value;
      assert [rs[0]] + rs[1..][..k] == rs[..k + 1];
      var reply := MakeReply(CommandOf(rs[0]), FdKey(rs[0].key), handle(n, rs[0]));
      var more := Replies(rs[1..], n + 1, handle);
      assert [reply] + more[..k - 1] == ([reply] + more)[..k];
    }
  }

  /**
   * On the concatenated bytes of any list of well-formed requests the loop
   * recovers exactly these requests and keys in order and closes cleanly,
   * whichever handlers fail, and it replies to each of them. If a reply cannot
   * be written, it handles the requests up to that one and no more.
   */
  lemma {:induction false} ServeAll(rs: seq<Request>, n: nat, writes: Budget, handle: Handler)
    requires forall i :: 0 <= i < |rs| ==> WellFormed(rs[i])
    ensures Serve(EncodeAll(rs), n, writes, handle) == SessionOf(rs, n, writes, handle)
  {
    if rs != [] {
      var tail := EncodeAll(rs[1..]);
      assert EncodeAll(rs) == EncodeRequest(rs[0]) + tail;
      ServeOne(rs[0], tail, n, writes, handle);
      if writes == Some(0) {
        assert rs[..1] == [rs[0]];
      } else {
        ServeAll(rs[1..], n + 1, Spend(writes), handle);
        SessionOfMore(rs, n, writes, handle);
      }
    }
  }

  // ----- The client's side ------------------------------------------------

  datatype ClientResult = Answered(data: Bytes, oob: Bytes) | ServerError(message: Bytes) | ProtocolError

  /** What the client makes of a reply to its request; only Get skips the key check. */
  function Accept(r: Request, reply: Reply): ClientResult {
    if |reply.header| != HEADER_SIZE then ProtocolError
    else Judge(r, DecodeHeader(reply.header), reply.data, reply.oob)
  }

  function Judge(r: Request, h: Header, data: Bytes, oob: Bytes): ClientResult {
    if h.magic != MAGIC || h.dataSize != |data| || h.oobSize != |oob| then ProtocolError
    else if h.command == CMD_ERROR then ServerError(data)
    else if h.command != CommandOf(r) + RESPONSE then ProtocolError
    else if !r.Get? && TrimSpace(h.key) != r.key then ProtocolError
    else Answered(data, oob)
  }

  lemma JudgeSuccess(r: Request, h: Header, data: Bytes, oob: Bytes)
    requires Clean(r.key) && h.key == FdKey(r.key)
    requires h.magic == MAGIC && h.command == CommandOf(r) + RESPONSE && h.dataSize == |data| && h.oobSize == |oob|
    ensures Judge(r, h, data, oob) == Answered(data, oob)
  {
    assert TrimSpace(FdKey(r.key)) == r.key by { KeyRoundTrip(r.key); }
  }

  /** The client takes a reply for an answer exactly if it is a whole one to its own command and, but for Get, key. */
  lemma AnsweredIff(r: Request, reply: Reply, data: Bytes, oob: Bytes)
    ensures Accept(r, reply) == Answered(data, oob) <==>
            && reply.data == data && reply.oob == oob
            && exists h: Header :: |h.key| == KEY_SIZE && reply.header == EncodeHeader(h)
                           && h.magic == MAGIC && h.command == CommandOf(r) + RESPONSE
                           && h.dataSize == |data| && h.oobSize == |oob|
                           && (r.Get? || TrimSpace(h.key) == r.key)
  {
    if |reply.header| == HEADER_SIZE {
      HeaderBytesRoundTrip(reply.header);
    }
    forall h: Header | |h.key| == KEY_SIZE && reply.header == EncodeHeader(h)
      ensures DecodeHeader(reply.header) == h
    {
      HeaderRoundTrip(h);
    }
  }

  lemma AcceptSuccess(r: Request, data: Bytes, oob: Bytes)
    requires WellFormed(r) && |data| < U32 && |oob| < U32
    ensures Accept(r, MakeReply(CommandOf(r), FdKey(r.key), Success(data, oob))) == Answered(data, oob)
  {
    var h := ResponseHeader(CommandOf(r), FdKey(r.key), data, oob);
    HeaderRoundTrip(h);
    JudgeSuccess(r, h, data, oob);
  }

  lemma AcceptFailure(r: Request, message: Bytes)
    requires |message| < U32
    ensures Accept(r, ErrorReply(message)) == ServerError(message)
  {
    HeaderRoundTrip(ErrorHeader(message));
  }

  /** An answer whose parts fit the size fields of a reply. */
  predicate Fits(a: Answer) {
    match a
    case Success(data, oob) => |data| < U32 && |oob| < U32
    case Failure(message) => |message| < U32
  }

  /** What the client should report for an answer. */
  function Reported(a: Answer): ClientResult {
    match a
    case Success(data, oob) => Answered(data, oob)
    case Failure(message) => ServerError(message)
  }

  /**
   * End to end: for every list of well-formed requests and whatever the
   * handlers answer, the client of each request sees the answer to its own.
   */
  lemma {:induction false} ClientsSeeTheirAnswers(rs: seq<Request>, n: nat, handle: Handler, i: nat)
    requires i < |rs| && WellFormed(rs[i]) && Fits(handle(n + i, rs[i]))
    ensures Accept(rs[i], Replies(rs, n, handle)[i]) == Reported(handle(n + i, rs[i]))
  {
    if i == 0 {
      match handle(n, rs[0])
      case Success(data, oob) => AcceptSuccess(rs[0], data, oob);
      case Failure(message) => AcceptFailure(rs[0], message);
    } else {
      ClientsSeeTheirAnswers(rs[1..], n + 1, handle, i - 1);
    }
  }
}
