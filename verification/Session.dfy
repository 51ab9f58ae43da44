/** From the bytes of a connection to the replies: what arrives is parsed, dispatched by name and served. */
module Sessions {
  import opened Clients
  import opened CommandHandlers
  import opened CommandLaws
  import opened Database
  import opened Decimal
  import opened Expiry
  import opened Handler
  import opened Pipeline
  import opened Resp
  import opened RoundTrip
  import opened Seals
  import opened Serving
  import opened Store
  import opened Stream
  import opened Wrappers

  const SET_NAME: Bytes := [0x53, 0x45, 0x54]
  const GET_NAME: Bytes := [0x47, 0x45, 0x54]
  const DEL_NAME: Bytes := [0x44, 0x45, 0x4C]
  const LPUSH_NAME: Bytes := [0x4C, 0x50, 0x55, 0x53, 0x48]
  const RPUSH_NAME: Bytes := [0x52, 0x50, 0x55, 0x53, 0x48]
  const LRANGE_NAME: Bytes := [0x4C, 0x52, 0x41, 0x4E, 0x47, 0x45]

  /** The arguments as the C strings the commands work on. */
  function CStrs(args: seq<Bytes>): (r: seq<Bytes>)
    ensures |r| == |args| && forall i :: 0 <= i < |args| ==> 0 !in r[i]
  {
    seq(|args|, i requires 0 <= i < |args| => CStr(args[i]))
  }

  /** The command that the first argument names, if it is one on the store. */
  function Dispatch(args: seq<Bytes>): Option<Command> {
    if args == [] then None
    else
      var name := CStr(args[0]);
      if name == SET_NAME then Some(SetCommand(CStrs(args)))
      else if name == GET_NAME then Some(GetCommand(CStrs(args)))
      else if name == DEL_NAME then Some(DelCommand(CStrs(args)))
      else if name == LPUSH_NAME then Some(PushCommand(true, CStrs(args)))
      else if name == RPUSH_NAME then Some(PushCommand(false, CStrs(args)))
      else if name == LRANGE_NAME then Some(RangeCommand(CStrs(args)))
      else None
  }

  /** The names, as texts; letters in lower case name nothing. */
  lemma {:induction false} DispatchByName(args: seq<Bytes>)
    requires args != []
    ensures CStr(args[0]) == Text("SET") ==> Dispatch(args) == Some(SetCommand(CStrs(args)))
    ensures CStr(args[0]) == Text("GET") ==> Dispatch(args) == Some(GetCommand(CStrs(args)))
    ensures CStr(args[0]) == Text("DEL") ==> Dispatch(args) == Some(DelCommand(CStrs(args)))
    ensures CStr(args[0]) == Text("LPUSH") ==> Dispatch(args) == Some(PushCommand(true, CStrs(args)))
    ensures CStr(args[0]) == Text("RPUSH") ==> Dispatch(args) == Some(PushCommand(false, CStrs(args)))
    ensures CStr(args[0]) == Text("LRANGE") ==> Dispatch(args) == Some(RangeCommand(CStrs(args)))
    ensures Dispatch(args) == None <==>
      CStr(args[0]) !in {Text("SET"), Text("GET"), Text("DEL"), Text("LPUSH"), Text("RPUSH"), Text("LRANGE")}
  {
    NameTexts();
  }

  lemma {:induction false} NameTexts()
    ensures Text("SET") == SET_NAME && Text("GET") == GET_NAME && Text("DEL") == DEL_NAME
    ensures Text("LPUSH") == LPUSH_NAME && Text("RPUSH") == RPUSH_NAME && Text("LRANGE") == LRANGE_NAME
  {
  }

  /** Arguments without NUL are passed on as they are. */
  lemma {:induction false} CleanArgsKept(args: seq<Bytes>)
    requires forall i :: 0 <= i < |args| ==> 0 !in args[i]
    ensures CStrs(args) == args
  {
  }

  predicate Known(cmds: seq<seq<Bytes>>) { forall i :: 0 <= i < |cmds| ==> Dispatch(cmds[i]).Some? }

  /** The commands with the times at which they are executed. */
  function Schedule(cmds: seq<seq<Bytes>>, times: seq<int>): seq<Timed>
    requires Known(cmds) && |times| == |cmds|
  {
    seq(|cmds|, i requires 0 <= i < |cmds| => (Dispatch(cmds[i]).value, times[i]))
  }

  /** The pieces of a stream of commands, none of them cut inside a payload. */
  ghost predicate Arrives(cmds: seq<seq<Bytes>>, pieces: seq<Bytes>) {
    && pieces != [] && Concat(pieces) == EncodeAll(cmds) && (forall i :: 0 <= i < |cmds| ==> Fits(cmds[i]))
    && forall k :: 0 < k < |pieces| ==> !Inside(cmds, |Concat(pieces[..k])|)
  }

  /** What the parser has not used of the pieces so far. */
  ghost function Unparsed(h: HState, pieces: seq<Bytes>): Bytes {
    ParserSound();
    ReadAll(Parser(), Feed(Init(h), [], Waiting), pieces).left
  }

  /** There is room in a buffer of this size for every piece behind what is still unparsed then. */
  ghost predicate Holds(size: nat, h: HState, pieces: seq<Bytes>) {
    forall i :: 0 <= i < |pieces| ==> |Unparsed(h, pieces[..i])| + |pieces[i]| <= size
  }

  lemma {:induction false} ReadLeaves(m: Machine<PState>, p: PState, s: Bytes)
    requires Sound(m) && m.ok(p)
    ensures var f := Read(m, Feed(p, [], Waiting), s); |f.left| <= |s| && f.ending == Run(m, p, s).ending
  {
    assert [] + s == s;
  }

  /** Harmless pieces are read as their concatenation is. */
  lemma {:induction false} ReadSoFar(h: HState, cmds: seq<seq<Bytes>>, pieces: seq<Bytes>, i: nat)
    requires !Gate(h) && Arrives(cmds, pieces) && 0 < i < |pieces|
    ensures var f := (ParserSound(); ReadAll(Parser(), Feed(Init(h), [], Waiting), pieces[..i]));
      f.ending == Waiting && |f.left| <= |Concat(pieces[..i])|
  {
    ParserSound();
    forall k | 0 < k <= i
      ensures GoodCut(Parser(), Init(h), Concat(pieces[..k]))
    {
      HarmlessPrefix(h, cmds, pieces, k);
    }
    forall k | 0 < k < i
      ensures GoodCut(Parser(), Init(h), Concat(pieces[..i][..k]))
    {
      assert pieces[..i][..k] == pieces[..k];
    }
    ChunksReadAsWhole(Parser(), Init(h), pieces[..i]);
    ReadLeaves(Parser(), Init(h), Concat(pieces[..i]));
  }

  /** After some of the pieces the client waits for more. */
  lemma {:induction false} WaitsForMore(h: HState, cmds: seq<seq<Bytes>>, pieces: seq<Bytes>, i: nat, f: Feed<PState>)
    requires !Gate(h) && Arrives(cmds, pieces) && i < |pieces| && FedBy(Feed(Init(h), [], Waiting), pieces[..i], f)
    ensures f.ending == Waiting && f.left == Unparsed(h, pieces[..i])
  {
    assert Opened<Bytes>([]);
    if i > 0 { ReadSoFar(h, cmds, pieces, i); }
  }

  lemma {:induction false} PieceFits(h: HState, cmds: seq<seq<Bytes>>, pieces: seq<Bytes>, i: nat)
    requires !Gate(h) && Arrives(cmds, pieces) && i < |pieces|
    ensures |Unparsed(h, pieces[..i])| + |pieces[i]| <= |Concat(pieces)|
  {
    if i > 0 { ReadSoFar(h, cmds, pieces, i); }
    ConcatPrefix(pieces, i + 1);
    assert pieces[..i + 1][..i] == pieces[..i];
  }

  /** A buffer that can hold the whole stream holds every piece in turn. */
  lemma {:induction false} WholeStreamFits(size: nat, h: HState, cmds: seq<seq<Bytes>>, pieces: seq<Bytes>)
    requires !Gate(h) && Arrives(cmds, pieces) && |Concat(pieces)| <= size
    ensures Holds(size, h, pieces)
  {
    forall i | 0 <= i < |pieces|
      ensures |Unparsed(h, pieces[..i])| + |pieces[i]| <= size
    {
      PieceFits(h, cmds, pieces, i);
    }
  }

  /** The client is between two commands, with nothing left to parse. */
  ghost predicate AtRest(client: Client)
    reads client, client.input, client.input.region, client.parser, client.parser.stack, client.parser.ch
  {
    client.Valid() && client.FeedState() == Feed(Init(client.parser.ch.State()), [], Waiting)
  }

  /** There is room for the next piece. */
  lemma {:induction false} NextFits(h: HState, cmds: seq<seq<Bytes>>, pieces: seq<Bytes>, i: nat, f: Feed<PState>,
      size: nat)
    requires !Gate(h) && Arrives(cmds, pieces) && Holds(size, h, pieces) && i < |pieces|
    requires FedBy(Feed(Init(h), [], Waiting), pieces[..i], f)
    ensures f.ending == Waiting && |f.left| + |pieces[i]| <= size && pieces[..i + 1] == pieces[..i] + [pieces[i]]
  {
    HoldsNext(size, h, pieces, i);
    WaitsForMore(h, cmds, pieces, i, f);
  }

  lemma {:induction false} HoldsNext(size: nat, h: HState, pieces: seq<Bytes>, i: nat)
    requires Holds(size, h, pieces) && i < |pieces|
    ensures |Unparsed(h, pieces[..i])| + |pieces[i]| <= size && pieces[..i + 1] == pieces[..i] + [pieces[i]]
  {
  }

  method ReceivePiece(client: Client, piece: Bytes, ghost f0: Feed<PState>, ghost before: seq<Bytes>)
    requires client.Valid() && StackOk(f0.p.stack) && FedBy(f0, before, client.FeedState())
    requires client.ending == Waiting && |client.FeedState().left| + |piece| <= client.input.size
    modifies client, client.input, client.input.region, client.parser, client.parser.stack, client.parser.ch
    ensures client.Valid() && FedBy(f0, before + [piece], client.FeedState())
  {
    ghost var f := client.FeedState();
    client.Receive(piece);
    FedOnce(f, piece, client.FeedState());
    FedMore(f0, before, f, piece, client.FeedState());
  }

  /** Commands that arrive in harmless pieces are all logged, with exactly their arguments. */
  method ReceiveAll(client: Client, pieces: seq<Bytes>, ghost cmds: seq<seq<Bytes>>)
    requires AtRest(client) && !Gate(client.parser.ch.State()) && Arrives(cmds, pieces)
    requires Holds(client.input.size, client.parser.ch.State(), pieces)
    modifies client, client.input, client.input.region, client.parser, client.parser.stack, client.parser.ch
    ensures AtRest(client) && client.parser.ch.commands == old(client.parser.ch.commands) + cmds
  {
    ghost var h := client.parser.ch.State();
    FedNothing(client.FeedState());
    for i := 0 to |pieces|
      invariant client.Valid() && FedBy(Feed(Init(h), [], Waiting), pieces[..i], client.FeedState())
    {
      NextFits(h, cmds, pieces, i, client.FeedState(), client.input.size);
      ReceivePiece(client, pieces[i], Feed(Init(h), [], Waiting), pieces[..i]);
    }
    assert pieces[..|pieces|] == pieces && Opened<Bytes>([]);
    PipelineInChunks(h, cmds, pieces);
  }

  /** Nothing of the client is part of the database. */
  ghost predicate Apart(client: Client, db: RedisDb)
    reads client, db, db.h, client.parser
  {
    var a: set<object> :=
      {client, client.input, client.input.region, client.parser, client.parser.stack, client.parser.ch};
    a !! {db, db.h, db.h.flags, db.h.keys, db.h.vals} && a !! db.lists.Keys && a !! db.nodes
  }

  datatype SessionKey = SessionKey

  /**
   The client is between two commands, and the pieces of a stream of commands arrive that its buffer can hold.
   The database is apart from it. Sealed.
   */
  ghost function Incoming(client: Client, db: RedisDb, cmds: seq<seq<Bytes>>, pieces: seq<Bytes>): Verdict
    reads client, client.input, client.input.region, client.parser, client.parser.stack, client.parser.ch, db, db.h
  {
    if forall k: SessionKey {:trigger Opened(k)} :: Opened(k) ==>
         && AtRest(client) && !Gate(client.parser.ch.State()) && Apart(client, db)
         && Arrives(cmds, pieces) && Holds(client.input.size, client.parser.ch.State(), pieces)
    then Met else Unmet
  }

  /** The run is what the commands come to at the given times. Sealed. */
  ghost function Scheduled(cmds: seq<seq<Bytes>>, times: seq<int>, run: seq<Timed>): Verdict {
    if forall k: SessionKey {:trigger Opened(k)} :: Opened(k) ==>
         Known(cmds) && |times| == |cmds| && run == Schedule(cmds, times)
    then Met else Unmet
  }

  /** What arrives is parsed and dispatched. The database is left alone. */
  method ReceiveBeside(client: Client, db: RedisDb, pieces: seq<Bytes>, times: seq<int>,
                       ghost cmds: seq<seq<Bytes>>, ghost run: seq<Timed>, ghost n: nat)
    returns (received: seq<Timed>)
    requires Incoming(client, db, cmds, pieces) == Met && Scheduled(cmds, times, run) == Met && db.Ready(n) == Met
    modifies client, client.input, client.input.region, client.parser, client.parser.stack, client.parser.ch
    ensures received == run && unchanged(db) && unchanged(db.h) && db.Ready(n) == Met
  {
    assert Opened(SessionKey);
    var before := |client.parser.ch.commands|;
    ReceiveAll(client, pieces, cmds);
    var log := client.parser.ch.commands[before..];
    assert log == cmds;
    received := Schedule(log, times);
  }

  /**
   A connection that sends commands in pieces, cut anywhere but inside a payload, gets the replies that the
   commands get one by one, and with a clock that does not go back those of a store that never deletes an
   expired entry.
   */
  method ServeSession(client: Client, db: RedisDb, pieces: seq<Bytes>, times: seq<int>, garbage: seq<nat>,
                      ghost cmds: seq<seq<Bytes>>, ghost run: seq<Timed>, ghost spare: nat)
    returns (replies: seq<Reply>)
    requires Incoming(client, db, cmds, pieces) == Met && Scheduled(cmds, times, run) == Met
    requires |garbage| == |run| && db.Ready(ArgCount(run) + spare) == Met
    modifies client, client.input, client.input.region, client.parser, client.parser.stack, client.parser.ch
    modifies db, db.h, db.h.flags, db.h.keys, db.h.vals, db.lists.Keys, db.nodes
    ensures db.Ready(spare) == Met && db.view == Final(true, old(db.view), run)
    ensures replies == Replies(true, old(db.view), run)
    ensures NeverBack(run) ==> replies == Replies(false, old(db.view), run)
  {
    var received := ReceiveBeside(client, db, pieces, times, cmds, run, ArgCount(run) + spare);
    replies := ServeRun(db, received, garbage, spare);
  }

  /** The handler state of a new connection. */
  function NewHandler(bufSize: nat): HState { HState([], bufSize, [], [], [], false, NoRepl, false) }

  method NewSession(hash: Bytes -> nat, bufSize: nat, size: nat, ghost cmds: seq<seq<Bytes>>,
                    ghost pieces: seq<Bytes>, ghost n: nat)
    returns (client: Client, db: RedisDb)
    requires size > 0 && Arrives(cmds, pieces) && Holds(size, NewHandler(bufSize), pieces) && n <= 0x1000_0000
    ensures Incoming(client, db, cmds, pieces) == Met && db.Ready(n) == Met && db.view == map[] && Own(db)
    ensures fresh(client) && fresh(client.input) && fresh(client.input.region)
    ensures fresh(client.parser) && fresh(client.parser.stack) && fresh(client.parser.ch)
  {
    client, db := NewParts(hash, bufSize, size, n);
    IncomingIs(client, db, cmds, pieces);
  }

  method NewParts(hash: Bytes -> nat, bufSize: nat, size: nat, ghost n: nat) returns (client: Client, db: RedisDb)
    requires size > 0 && n <= 0x1000_0000
    ensures AtRest(client) && client.parser.ch.State() == NewHandler(bufSize) && client.input.size == size
    ensures Apart(client, db) && db.Ready(n) == Met && db.view == map[] && Own(db)
    ensures fresh(client) && fresh(client.input) && fresh(client.input.region)
    ensures fresh(client.parser) && fresh(client.parser.stack) && fresh(client.parser.ch)
  {
    client := NewClient(bufSize, size);
    db := new RedisDb(hash);
  }

  method NewClient(bufSize: nat, size: nat) returns (client: Client)
    requires size > 0
    ensures AtRest(client) && client.parser.ch.State() == NewHandler(bufSize) && client.input.size == size
    ensures fresh(client) && fresh(client.input) && fresh(client.input.region)
    ensures fresh(client.parser) && fresh(client.parser.stack) && fresh(client.parser.ch)
  {
    var ch := new CommandHandler(bufSize, false, NoRepl);
    client := new Client(ch, size);
  }

  lemma {:induction false} IncomingIs(client: Client, db: RedisDb, cmds: seq<seq<Bytes>>, pieces: seq<Bytes>)
    requires AtRest(client) && !Gate(client.parser.ch.State()) && Apart(client, db)
    requires Arrives(cmds, pieces) && Holds(client.input.size, client.parser.ch.State(), pieces)
    ensures Incoming(client, db, cmds, pieces) == Met
  {
  }

  lemma {:induction false} ScheduleIs(cmds: seq<seq<Bytes>>, times: seq<int>)
    requires Known(cmds) && |times| == |cmds|
    ensures |Schedule(cmds, times)| == |cmds| && Scheduled(cmds, times, Schedule(cmds, times)) == Met
  {
  }

  /** A new connection to a new server. */
  method ServeConnection(hash: Bytes -> nat, bufSize: nat, size: nat, pieces: seq<Bytes>, times: seq<int>,
                         garbage: seq<nat>, ghost cmds: seq<seq<Bytes>>, ghost run: seq<Timed>)
    returns (db: RedisDb, replies: seq<Reply>)
    requires size > 0 && Arrives(cmds, pieces) && Holds(size, NewHandler(bufSize), pieces)
    requires Known(cmds) && |times| == |garbage| == |cmds| && run == Schedule(cmds, times)
    requires ArgCount(run) <= 0x1000_0000
    ensures db.Ready(0) == Met && db.view == Final(true, map[], run)
    ensures replies == Replies(true, map[], run) && (NeverBack(run) ==> replies == Replies(false, map[], run))
  {
    ScheduleIs(cmds, times);
    db, replies := ServeNew(hash, bufSize, size, pieces, times, garbage, cmds, run);
  }

  method ServeNew(hash: Bytes -> nat, bufSize: nat, size: nat, pieces: seq<Bytes>, times: seq<int>,
                  garbage: seq<nat>, ghost cmds: seq<seq<Bytes>>, ghost run: seq<Timed>)
    returns (db: RedisDb, replies: seq<Reply>)
    requires size > 0 && Arrives(cmds, pieces) && Holds(size, NewHandler(bufSize), pieces)
    requires Scheduled(cmds, times, run) == Met && |garbage| == |run| && ArgCount(run) <= 0x1000_0000
    ensures db.Ready(0) == Met && db.view == Final(true, map[], run)
    ensures replies == Replies(true, map[], run) && (NeverBack(run) ==> replies == Replies(false, map[], run))
  {
    var client;
    client, db := NewSession(hash, bufSize, size, cmds, pieces, ArgCount(run));
    replies := ServeSession(client, db, pieces, times, garbage, cmds, run, 0);
  }

  lemma {:induction false} TwoScheduled(a: seq<Bytes>, b: seq<Bytes>, c: Command, d: Command, now: int, t: int)
    requires Dispatch(a) == Some(c) && Dispatch(b) == Some(d)
    ensures Known([a, b]) && Schedule([a, b], [now, t]) == [(c, now), (d, t)]
  {
  }

  lemma {:induction false} SetAndGetDispatched(k: Bytes, v: Bytes)
    requires 0 !in k && 0 !in v
    ensures Dispatch([Text("SET"), k, v]) == Some(SetCommand([Text("SET"), k, v]))
    ensures Dispatch([Text("GET"), k]) == Some(GetCommand([Text("GET"), k]))
  {
    NameTexts();
    assert 0 !in SET_NAME && 0 !in GET_NAME;
    CleanArgsKept([SET_NAME, k, v]);
    CleanArgsKept([GET_NAME, k]);
  }

  /** A SET and a GET of the same key, by name: what any server replies to them. */
  lemma {:induction false} SetThenGetServed(lazy: bool, db: Db, k: Bytes, v: Bytes, now: int, t: int)
    requires 0 !in k && 0 !in v && now <= t
    ensures var cmds := [[Text("SET"), k, v], [Text("GET"), k]];
      Known(cmds) && Replies(lazy, db, Schedule(cmds, [now, t])) == [Okay, Reply.Bulk(v)]
  {
    var a, b := [Text("SET"), k, v], [Text("GET"), k];
    SetAndGetDispatched(k, v);
    TwoScheduled(a, b, SetCommand(a), GetCommand(b), now, t);
    PlainSetThenGet(lazy, db, Text("SET"), Text("GET"), k, v, now, t);
  }
}
