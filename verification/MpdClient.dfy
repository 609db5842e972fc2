/**
 The MPD client above whole response lines: a queue of handlers, a standing `idle`,
 and commands pipelined around it with `noidle`. The other end is a server that obeys
 the `idle`/`noidle` rules of the MPD protocol; the two are joined by ordered lines in
 each direction, so a reply to `idle` can cross a `noidle` on the wire.
 */
module MpdClient {
  import opened Strings
  import opened Options

  // Every request that expects a reply carries a number, and so does its handler.

  datatype Line = NoIdle | Idle(id: nat) | Command(id: nat, text: string)

  datatype Reply = Greeting | Answer(id: nat, idle: bool, refused: bool, text: string)

  /** A queued handler: the idle loop, or the callback of one command. */
  datatype Handler = IdleLoop(id: nat) | Callback(id: nat)

  // ----- what is still to be answered -----

  function AwaitedBy(line: Line): seq<Handler> {
    match line
    case NoIdle => []
    case Idle(id) => [IdleLoop(id)]
    case Command(id, _) => [Callback(id)]
  }

  function Awaited(lines: seq<Line>): seq<Handler> {
    if lines == [] then [] else AwaitedBy(lines[0]) + Awaited(lines[1..])
  }

  function HandlerOf(r: Reply): seq<Handler> {
    match r
    case Greeting => []
    case Answer(id, idle, _, _) => [if idle then IdleLoop(id) else Callback(id)]
  }

  function Answered(replies: seq<Reply>): seq<Handler> {
    if replies == [] then [] else HandlerOf(replies[0]) + Answered(replies[1..])
  }

  function Standing(waiting: Option<nat>): seq<Handler> {
    if waiting.Some? then [IdleLoop(waiting.value)] else []
  }

  function Outstanding(toClient: seq<Reply>, waiting: Option<nat>, toServer: seq<Line>): seq<Handler> {
    Answered(toClient) + Standing(waiting) + Awaited(toServer)
  }

  // ----- the commands and their answers -----

  /** What a callback is given. */
  datatype Outcome = Outcome(refused: bool, text: string)

  function TextOf(line: Line): seq<string> {
    match line
    case Command(_, text) => [text]
    case _ => []
  }

  /** The texts of the commands in these lines. */
  function Texts(lines: seq<Line>): seq<string> {
    if lines == [] then [] else TextOf(lines[0]) + Texts(lines[1..])
  }

  function OutcomeOf(r: Reply): seq<Outcome> {
    match r
    case Greeting => []
    case Answer(_, idle, refused, text) => if idle then [] else [Outcome(refused, text)]
  }

  /** The answers to commands in these replies. */
  function Outcomes(replies: seq<Reply>): seq<Outcome> {
    if replies == [] then [] else OutcomeOf(replies[0]) + Outcomes(replies[1..])
  }

  lemma {:induction false} TextsAppend(a: seq<Line>, b: seq<Line>)
    ensures Texts(a + b) == Texts(a) + Texts(b)
  {
    hide TextOf;
    if a == [] {
      assert a + b == b;
    } else {
      TextsAppend(a[1..], b);
      assert (a + b)[0] == a[0] && (a + b)[1..] == a[1..] + b;
      Associates(TextOf(a[0]), Texts(a[1..]), Texts(b));
    }
  }

  lemma {:induction false} OutcomesAppend(a: seq<Reply>, b: seq<Reply>)
    ensures Outcomes(a + b) == Outcomes(a) + Outcomes(b)
  {
    hide OutcomeOf;
    if a == [] {
      assert a + b == b;
    } else {
      OutcomesAppend(a[1..], b);
      assert (a + b)[0] == a[0] && (a + b)[1..] == a[1..] + b;
      Associates(OutcomeOf(a[0]), Outcomes(a[1..]), Outcomes(b));
    }
  }

  /**
   The commands the server took, followed by those under way, are those accepted for
   sending; the outcomes that callbacks were given, followed by those under way, are
   the server's answers to the commands it took.
   */
  ghost predicate Kept(accepted: seq<string>, taken: seq<string>, answers: seq<Outcome>, results: seq<Outcome>,
                       toServer: seq<Line>, toClient: seq<Reply>) {
    taken + Texts(toServer) == accepted && results + Outcomes(toClient) == answers && |answers| == |taken|
  }

  lemma KeptSend(accepted: seq<string>, taken: seq<string>, answers: seq<Outcome>, results: seq<Outcome>,
                 toServer: seq<Line>, toClient: seq<Reply>, lines: seq<Line>)
    requires Kept(accepted, taken, answers, results, toServer, toClient)
    ensures Kept(accepted + Texts(lines), taken, answers, results, toServer + lines, toClient)
  {
    hide Texts, Outcomes;
    TextsAppend(toServer, lines);
  }

  lemma KeptReply(accepted: seq<string>, taken: seq<string>, answers: seq<Outcome>, results: seq<Outcome>,
                  toServer: seq<Line>, toClient: seq<Reply>, r: Reply)
    requires Kept(accepted, taken, answers, results, toServer, toClient) && OutcomeOf(r) == []
    ensures Kept(accepted, taken, answers, results, toServer, toClient + [r])
  {
    OutcomesAppend(toClient, [r]);
    assert [r][1..] == [];
    hide Texts;
  }

  lemma KeptTake(accepted: seq<string>, taken: seq<string>, answers: seq<Outcome>, results: seq<Outcome>,
                 toServer: seq<Line>, toClient: seq<Reply>)
    requires Kept(accepted, taken, answers, results, toServer, toClient) && toServer != [] && !toServer[0].Command?
    ensures Kept(accepted, taken, answers, results, toServer[1..], toClient)
  {
    NoText(toServer);
    hide Texts, Outcomes;
  }

  lemma NoText(lines: seq<Line>)
    requires lines != [] && !lines[0].Command?
    ensures Texts(lines) == Texts(lines[1..])
  {
    assert [] + Texts(lines[1..]) == Texts(lines[1..]);
  }

  lemma KeptAnswer(accepted: seq<string>, taken: seq<string>, answers: seq<Outcome>, results: seq<Outcome>,
                   toServer: seq<Line>, toClient: seq<Reply>, r: Reply)
    requires Kept(accepted, taken, answers, results, toServer, toClient) && toServer != [] && toServer[0].Command?
    requires r.Answer? && !r.idle
    ensures Kept(accepted, taken + [toServer[0].text], answers + [Outcome(r.refused, r.text)], results, toServer[1..],
      toClient + [r])
  {
    OneOutcome(toClient, r);
    FirstText(toServer);
    hide Texts, Outcomes;
    Associates(taken, [toServer[0].text], Texts(toServer[1..]));
    Associates(results, Outcomes(toClient), [Outcome(r.refused, r.text)]);
  }

  lemma OneOutcome(toClient: seq<Reply>, r: Reply)
    requires r.Answer? && !r.idle
    ensures Outcomes(toClient + [r]) == Outcomes(toClient) + [Outcome(r.refused, r.text)]
  {
    OutcomesAppend(toClient, [r]);
    assert [r][1..] == [];
  }

  lemma FirstText(lines: seq<Line>)
    requires lines != [] && lines[0].Command?
    ensures Texts(lines) == [lines[0].text] + Texts(lines[1..])
  {}

  lemma KeptReceive(accepted: seq<string>, taken: seq<string>, answers: seq<Outcome>, results: seq<Outcome>,
                    toServer: seq<Line>, toClient: seq<Reply>)
    requires Kept(accepted, taken, answers, results, toServer, toClient) && toClient != []
    ensures Kept(accepted, taken, answers, results + OutcomeOf(toClient[0]), toServer, toClient[1..])
  {
    hide Texts, OutcomeOf;
    Associates(results, OutcomeOf(toClient[0]), Outcomes(toClient[1..]));
  }

  lemma Associates<T>(a: seq<T>, b: seq<T>, c: seq<T>)
    ensures a + (b + c) == a + b + c
  {}

  lemma {:induction false} AwaitedAppend(a: seq<Line>, b: seq<Line>)
    ensures Awaited(a + b) == Awaited(a) + Awaited(b)
  {
    hide AwaitedBy;
    if a == [] {
      assert a + b == b;
    } else {
      AwaitedAppend(a[1..], b);
      assert (a + b)[0] == a[0] && (a + b)[1..] == a[1..] + b;
      Associates(AwaitedBy(a[0]), Awaited(a[1..]), Awaited(b));
    }
  }

  lemma {:induction false} AnsweredAppend(a: seq<Reply>, b: seq<Reply>)
    ensures Answered(a + b) == Answered(a) + Answered(b)
  {
    hide HandlerOf;
    if a == [] {
      assert a + b == b;
    } else {
      AnsweredAppend(a[1..], b);
      assert (a + b)[0] == a[0] && (a + b)[1..] == a[1..] + b;
      Associates(HandlerOf(a[0]), Answered(a[1..]), Answered(b));
    }
  }

  /** The server takes these lines without ever getting a request while it waits in idle. */
  predicate Acceptable(idle: bool, lines: seq<Line>)
    decreases lines
  {
    lines == [] ||
    match lines[0]
    case NoIdle => Acceptable(false, lines[1..])
    case Idle(_) => !idle && Acceptable(true, lines[1..])
    case Command(_, _) => !idle && Acceptable(false, lines[1..])
  }

  /** Leaving idle on its own never makes the lines underway unacceptable. */
  lemma WakingIsSafe(lines: seq<Line>)
    requires Acceptable(true, lines)
    ensures Acceptable(false, lines)
  {}

  lemma {:induction false} AppendAcceptable(idle: bool, a: seq<Line>, b: seq<Line>)
    requires Acceptable(idle, a) && Acceptable(true, b)
    ensures Acceptable(idle, a + b)
    decreases |a|
  {
    if a == [] {
      assert a + b == b;
      if !idle { WakingIsSafe(b); }
    } else {
      assert (a + b)[1..] == a[1..] + b;
      AppendAcceptable(a[0].Idle?, a[1..], b);
    }
  }

  lemma {:induction false} NothingAwaited(lines: seq<Line>, id: nat)
    requires Awaited(lines) == []
    ensures Acceptable(false, lines + [Idle(id)])
    decreases |lines|
  {
    if lines == [] {
      assert lines + [Idle(id)] == [Idle(id)];
      assert Acceptable(true, [Idle(id)][1..]);
    } else {
      assert (lines + [Idle(id)])[1..] == lines[1..] + [Idle(id)];
      NothingAwaited(lines[1..], id);
    }
  }

  // ----- the text of an idle reply -----

  /** `handleIdleResults`: the subsystem names, each after "changed: ". */
  function SystemNames(parts: seq<string>): seq<string> {
    if parts == [] then []
    else (if parts[0] == "" then [] else [if |parts[0]| <= 9 then "" else parts[0][9..]]) + SystemNames(parts[1..])
  }

  /** What the server writes for these changed subsystems. */
  function ChangedText(names: seq<string>): string {
    if names == [] then "" else "changed: " + names[0] + "\n" + ChangedText(names[1..])
  }

  /** The client emits exactly the subsystems the server named. */
  lemma {:induction false} SystemNamesRoundTrip(names: seq<string>)
    requires AllFree(names, '\n')
    ensures SystemNames(Split(ChangedText(names), '\n')) == names
  {
    if names == [] {
      assert Split("", '\n') == [""];
      assert SystemNames([""]) == [] + SystemNames([""][1..]);
    } else {
      var head := "changed: " + names[0];
      assert Free("changed: ", '\n');
      assert Free(names[0], '\n');
      assert Free(head, '\n');
      assert ChangedText(names) == head + ['\n'] + ChangedText(names[1..]);
      SplitFirst(head, '\n', ChangedText(names[1..]));
      assert AllFree(names[1..], '\n');
      SystemNamesRoundTrip(names[1..]);
      assert |head| > 9 || names[0] == "";
      assert |head| >= 9 && head[9..] == names[0];
    }
  }

  /** A reply of the server, line by line. */
  lemma PlayerAndMixer()
    ensures SystemNames(Split("changed: player\nchanged: mixer\n", '\n')) == ["player", "mixer"]
  {
    var names := ["player", "mixer"];
    assert names[1..] == ["mixer"] && names[1..][1..] == [];
    assert ChangedText(names[1..]) == "changed: mixer\n";
    assert ChangedText(names) == "changed: player\nchanged: mixer\n";
    SystemNamesRoundTrip(names);
  }

  // ----- the client and its server -----

  predicate EndsIdle(queue: seq<Handler>) {
    queue != [] ==> queue[|queue| - 1].IdleLoop?
  }

  /** Requests are numbered in the order they were sent, and answered in that order. */
  predicate InOrder(called: seq<Handler>, queue: seq<Handler>, requests: nat) {
    |called + queue| == requests && forall i :: 0 <= i < requests ==> (called + queue)[i].id == i
  }

  /** Before the greeting nothing was sent; after it there is no other. */
  predicate Greeted(idling: bool, toClient: seq<Reply>, waiting: Option<nat>, toServer: seq<Line>) {
    if idling then Greeting !in toClient
    else toClient == [Greeting] && waiting == None && toServer == []
  }

  /** The handlers queued are those of everything outstanding, and the server can take every line. */
  ghost predicate Wired(
      queue: seq<Handler>, idling: bool, toClient: seq<Reply>, waiting: Option<nat>, toServer: seq<Line>) {
    && queue == Outstanding(toClient, waiting, toServer)
    && Acceptable(waiting.Some?, toServer)
    && Greeted(idling, toClient, waiting, toServer)
  }

  lemma WiredSend(
      queue: seq<Handler>, toClient: seq<Reply>, waiting: Option<nat>, toServer: seq<Line>, lines: seq<Line>)
    requires Wired(queue, true, toClient, waiting, toServer) && Acceptable(true, lines)
    ensures Wired(queue + Awaited(lines), true, toClient, waiting, toServer + lines)
  {
    hide Acceptable, Answered, Awaited;
    AwaitedAppend(toServer, lines);
    AppendAcceptable(waiting.Some?, toServer, lines);
  }

  lemma WiredIdle(toClient: seq<Reply>, waiting: Option<nat>, toServer: seq<Line>, idling: bool, id: nat)
    requires Wired([], idling, toClient, waiting, toServer) && Greeting !in toClient
    ensures Wired([IdleLoop(id)], true, toClient, waiting, toServer + [Idle(id)])
  {
    hide Acceptable, Answered, Awaited;
    NothingOutstanding(toClient, waiting, toServer);
    NothingAwaited(toServer, id);
    AwaitedAppend(toServer, [Idle(id)]);
    OneIdleAwaits(id);
  }

  lemma NothingOutstanding(toClient: seq<Reply>, waiting: Option<nat>, toServer: seq<Line>)
    requires Outstanding(toClient, waiting, toServer) == []
    ensures waiting == None && Awaited(toServer) == [] && Answered(toClient) == []
  {
    var o := Outstanding(toClient, waiting, toServer);
    assert |o| == |Answered(toClient)| + |Standing(waiting)| + |Awaited(toServer)|;
  }

  lemma AnsweredOne(toClient: seq<Reply>, r: Reply)
    ensures Answered(toClient + [r]) == Answered(toClient) + HandlerOf(r)
  {
    AnsweredAppend(toClient, [r]);
    assert [r][1..] == [];
    assert HandlerOf(r) + [] == HandlerOf(r);
  }

  /** The server answers the idle it waits in. */
  lemma WiredWake(
      queue: seq<Handler>, idling: bool, toClient: seq<Reply>, waiting: Option<nat>, toServer: seq<Line>, r: Reply)
    requires Wired(queue, idling, toClient, waiting, toServer) && waiting.Some?
    requires r.Answer? && r.id == waiting.value && r.idle
    ensures Wired(queue, idling, toClient + [r], None, toServer)
  {
    hide Acceptable, Answered, Awaited;
    AnsweredOne(toClient, r);
    assert Answered(toClient) + HandlerOf(r) + [] + Awaited(toServer)
      == Answered(toClient) + Standing(waiting) + Awaited(toServer);
    WakingIsSafe(toServer);
  }

  /** The server takes a `noidle` outside idle: nothing happens. */
  lemma WiredSkip(queue: seq<Handler>, idling: bool, toClient: seq<Reply>, toServer: seq<Line>)
    requires Wired(queue, idling, toClient, None, toServer) && toServer != [] && toServer[0].NoIdle?
    ensures Wired(queue, idling, toClient, None, toServer[1..])
  {
    hide Answered;
    assert [] + Awaited(toServer[1..]) == Awaited(toServer[1..]);
  }

  /** The server starts waiting in idle. */
  lemma WiredWait(queue: seq<Handler>, idling: bool, toClient: seq<Reply>, toServer: seq<Line>)
    requires Wired(queue, idling, toClient, None, toServer) && toServer != [] && toServer[0].Idle?
    ensures Wired(queue, idling, toClient, Some(toServer[0].id), toServer[1..])
  {
    hide Answered;
    var h, rest := [IdleLoop(toServer[0].id)], Awaited(toServer[1..]);
    assert Awaited(toServer) == h + rest;
    assert Answered(toClient) + [] + (h + rest) == Answered(toClient) + h + rest;
  }

  lemma Regroup<T>(a: seq<T>, b: seq<T>, c: seq<T>)
    ensures a + [] + (b + c) == a + b + [] + c
  {}

  lemma FirstOf<T>(h: seq<T>, a: seq<T>, b: seq<T>, c: seq<T>)
    requires |h| == 1
    ensures (h + a + b + c)[0] == h[0] && (h + a + b + c)[1..] == a + b + c
  {}

  /** The server answers the request it takes. */
  lemma WiredAnswer(queue: seq<Handler>, idling: bool, toClient: seq<Reply>, toServer: seq<Line>, r: Reply)
    requires Wired(queue, idling, toClient, None, toServer) && toServer != [] && !toServer[0].NoIdle?
    requires r.Answer? && r.id == toServer[0].id && r.idle == toServer[0].Idle?
    ensures Wired(queue, idling, toClient + [r], None, toServer[1..])
  {
    hide Answered;
    AnsweredOne(toClient, r);
    var rest := Awaited(toServer[1..]);
    assert Awaited(toServer) == HandlerOf(r) + rest;
    hide Awaited, HandlerOf;
    Regroup(Answered(toClient), HandlerOf(r), rest);
    if toServer[0].Idle? { WakingIsSafe(toServer[1..]); }
  }

  /** The reply at the head is for the handler at the head. */
  lemma WiredReceive(queue: seq<Handler>, idling: bool, toClient: seq<Reply>, waiting: Option<nat>, toServer: seq<Line>)
    requires Wired(queue, idling, toClient, waiting, toServer) && toClient != [] && toClient[0].Answer?
    ensures idling && queue != [] && HandlerOf(toClient[0]) == [queue[0]]
    ensures Wired(queue[1..], true, toClient[1..], waiting, toServer)
  {
    hide Acceptable, Awaited;
    var h, rest := HandlerOf(toClient[0]), Answered(toClient[1..]);
    assert Answered(toClient) == h + rest && |h| == 1;
    hide Answered, HandlerOf, Standing;
    FirstOf(h, rest, Standing(waiting), Awaited(toServer));
  }

  lemma WiredGreeting(
      queue: seq<Handler>, idling: bool, toClient: seq<Reply>, waiting: Option<nat>, toServer: seq<Line>)
    requires Wired(queue, idling, toClient, waiting, toServer) && toClient != [] && toClient[0].Greeting?
    ensures queue == [] && toClient[1..] == [] && Wired([], true, [], waiting, toServer)
  {
    assert toClient[0] in toClient;
    assert toClient == [Greeting];
    assert [Greeting][1..] == [];
  }

  /** A waiting server finds a `noidle` first. */
  lemma WaitingGetsNoIdle(
      queue: seq<Handler>, idling: bool, toClient: seq<Reply>, waiting: Option<nat>, toServer: seq<Line>)
    requires Wired(queue, idling, toClient, waiting, toServer) && waiting.Some? && toServer != []
    ensures toServer[0].NoIdle?
  {}

  lemma PipelineAwaits(id: nat, text: string)
    ensures Awaited([NoIdle, Command(id, text), Idle(id + 1)]) == [Callback(id), IdleLoop(id + 1)]
    ensures Acceptable(true, [NoIdle, Command(id, text), Idle(id + 1)])
    ensures Texts([NoIdle, Command(id, text), Idle(id + 1)]) == [text]
  {
    var lines := [NoIdle, Command(id, text), Idle(id + 1)];
    assert lines[1..] == [Command(id, text), Idle(id + 1)] && lines[1..][1..] == [Idle(id + 1)]
      && lines[1..][1..][1..] == [];
    assert Acceptable(false, lines[1..][1..]);
    assert Awaited(lines[1..][1..]) == [IdleLoop(id + 1)];
    assert Awaited(lines[1..]) == [Callback(id), IdleLoop(id + 1)];
    assert Texts(lines[1..][1..]) == [];
    assert Texts(lines[1..]) == [text];
  }

  lemma OneIdleAwaits(id: nat)
    ensures Awaited([Idle(id)]) == [IdleLoop(id)] && Texts([Idle(id)]) == []
  {
    assert [Idle(id)][1..] == [];
  }

  lemma TwoMore(called: seq<Handler>, queue: seq<Handler>, requests: nat)
    requires InOrder(called, queue, requests)
    ensures InOrder(called, queue + [Callback(requests), IdleLoop(requests + 1)], requests + 2)
  {
    var more := [Callback(requests), IdleLoop(requests + 1)];
    assert called + (queue + more) == called + queue + more;
  }

  class Session {
    // the client
    var msgHandlerQueue: seq<Handler>
    var idling: bool
    var systems: seq<string>
    // the wire and the server
    var toServer: seq<Line>
    var toClient: seq<Reply>
    var waiting: Option<nat>
    // request numbers, and the handlers called so far
    var requests: nat
    ghost var called: seq<Handler>
    // the commands accepted for sending, those the server took and how it answered, and what callbacks were given
    ghost var accepted: seq<string>
    ghost var taken: seq<string>
    ghost var answers: seq<Outcome>
    ghost var results: seq<Outcome>

    /**
     The handlers queued are, in order, those of the replies under way, of the idle the
     server waits in, and of the requests under way; the server can take every line.
     */
    ghost predicate Valid()
      reads this
    {
      && Wired(msgHandlerQueue, idling, toClient, waiting, toServer)
      && EndsIdle(msgHandlerQueue)
      && InOrder(called, msgHandlerQueue, requests)
      && Kept(accepted, taken, answers, results, toServer, toClient)
    }

    constructor ()
      ensures Valid() && !idling && called == [] && accepted == [] && taken == [] && answers == [] && results == []
    {
      accepted, taken, answers, results := [], [], [], [];
      msgHandlerQueue, idling, systems := [], false, [];
      toServer, toClient, waiting := [], [Greeting], None;
      requests, called := 0, [];
      assert [Greeting][1..] == [];
    }

    /** A standing `idle` is sent only when nothing is outstanding. */
    method SendIdle()
      requires Valid() && msgHandlerQueue == [] && Greeting !in toClient
      modifies `msgHandlerQueue, `toServer, `requests, `idling
      ensures Valid() && idling && msgHandlerQueue == [IdleLoop(old(requests))]
      ensures toServer == old(toServer) + [Idle(old(requests))] && requests == old(requests) + 1
    {
      hide Wired, Kept;
      KeptSend(accepted, taken, answers, results, toServer, toClient, [Idle(requests)]);
      OneIdleAwaits(requests);
      assert accepted + [] == accepted;
      WiredIdle(toClient, waiting, toServer, idling, requests);
      assert called + [] == called;
      msgHandlerQueue := [IdleLoop(requests)];
      toServer := toServer + [Idle(requests)];
      requests := requests + 1;
      idling := true;
    }

    /** `sendCommand`: refused before the greeting; else `noidle`, the command and a new `idle`. */
    method SendCommand(text: string) returns (ok: bool)
      requires Valid()
      modifies `msgHandlerQueue, `toServer, `requests, `accepted
      ensures Valid() && ok == idling
      ensures ok ==> msgHandlerQueue == old(msgHandlerQueue) + [Callback(old(requests)), IdleLoop(old(requests) + 1)]
      ensures ok ==> toServer == old(toServer) + [NoIdle, Command(old(requests), text), Idle(old(requests) + 1)]
      ensures ok ==> accepted == old(accepted) + [text] && requests == old(requests) + 2
      ensures !ok ==> msgHandlerQueue == old(msgHandlerQueue) && toServer == old(toServer)
      ensures !ok ==> accepted == old(accepted) && requests == old(requests)
    {
      hide Wired, Acceptable, Kept, InOrder;
      if !idling {
        return false;
      }
      TwoMore(called, msgHandlerQueue, requests);
      var lines := [NoIdle, Command(requests, text), Idle(requests + 1)];
      PipelineAwaits(requests, text);
      WiredSend(msgHandlerQueue, toClient, waiting, toServer, lines);
      KeptSend(accepted, taken, answers, results, toServer, toClient, lines);
      accepted := accepted + [text];
      msgHandlerQueue := msgHandlerQueue + [Callback(requests)];
      msgHandlerQueue := msgHandlerQueue + [IdleLoop(requests + 1)];
      toServer := toServer + [NoIdle];
      toServer := toServer + [Command(requests, text)];
      toServer := toServer + [Idle(requests + 1)];
      requests := requests + 2;
      assert msgHandlerQueue == old(msgHandlerQueue) + [Callback(old(requests)), IdleLoop(old(requests) + 1)];
      assert toServer == old(toServer) + lines;
      return true;
    }

    /** What the application sends from inside a callback. */
    method React(reactions: seq<string>)
      requires Valid() && idling
      modifies `msgHandlerQueue, `toServer, `requests, `accepted
      ensures Valid() && (msgHandlerQueue == [] <==> old(msgHandlerQueue) == [] && reactions == [])
      ensures accepted == old(accepted) + reactions && old(toServer) <= toServer
    {
      hide Wired, EndsIdle, InOrder, Kept;
      for i := 0 to |reactions|
        invariant Valid() && (msgHandlerQueue == [] <==> old(msgHandlerQueue) == [] && i == 0)
        invariant accepted == old(accepted) + reactions[..i] && old(toServer) <= toServer
      {
        var ok := SendCommand(reactions[i]);
        assert reactions[..i + 1] == reactions[..i] + [reactions[i]];
      }
      assert reactions[..|reactions|] == reactions;
    }

    /** `handleIdleResultsLoop`. */
    method HandleIdleResultsLoop(refused: bool, text: string, reactions: seq<string>)
      requires Valid() && idling
      modifies `msgHandlerQueue, `toServer, `requests, `systems, `idling, `accepted
      ensures Valid() && idling && accepted == old(accepted) + reactions && old(toServer) <= toServer
      ensures msgHandlerQueue == [] <==> refused && old(msgHandlerQueue) == [] && reactions == []
      ensures systems == old(systems) + (if refused then [] else SystemNames(Split(text, '\n')))
    {
      hide Wired, EndsIdle, InOrder, SystemNames, Kept;
      StaysGreeted(this);
      if refused {
        React(reactions);
        return;
      }
      systems := systems + SystemNames(Split(text, '\n'));
      React(reactions);
      if |msgHandlerQueue| == 0 {
        SendIdle();
      }
    }

    /**
     The client takes one reply, `receive` with `handleMessage` and `setupIdling`: the
     handler called is that of the request answered, and the queue is left empty only
     by a refused `idle` that nothing followed.
     */
    method Receive(reactions: seq<string>)
      requires Valid() && toClient != []
      modifies `msgHandlerQueue, `toServer, `toClient, `requests, `systems, `idling, `called, `accepted, `results
      ensures Valid() && idling && toClient == old(toClient)[1..]
      ensures accepted == old(accepted) + reactions && old(toServer) <= toServer
      ensures results == old(results) + OutcomeOf(old(toClient)[0])
      ensures called == old(called) + HandlerOf(old(toClient)[0])
      ensures old(toClient)[0].Answer? ==>
        old(msgHandlerQueue) != [] && called == old(called) + [old(msgHandlerQueue)[0]]
      ensures msgHandlerQueue == [] <==>
        old(toClient)[0].Answer? && old(toClient)[0].idle && old(toClient)[0].refused && |old(msgHandlerQueue)| == 1
          && reactions == []
      ensures systems == old(systems) +
        (if old(toClient)[0].Answer? && old(toClient)[0].idle && !old(toClient)[0].refused
         then SystemNames(Split(old(toClient)[0].text, '\n')) else [])
    {
      hide Wired, SystemNames, Kept;
      var r := toClient[0];
      KeptReceive(accepted, taken, answers, results, toServer, toClient);
      if r.Greeting? {
        WiredGreeting(msgHandlerQueue, idling, toClient, waiting, toServer);
        toClient, idling := [], true;
        assert results + [] == results;
        SendIdle();
        React(reactions);
      } else {
        WiredReceive(msgHandlerQueue, idling, toClient, waiting, toServer);
        toClient := toClient[1..];
        var handler := msgHandlerQueue[0];
        msgHandlerQueue := msgHandlerQueue[1..];
        called := called + [handler];
        assert old(called) + old(msgHandlerQueue) == called + msgHandlerQueue;
        hide InOrder, EndsIdle;
        match handler {
          case IdleLoop(_) =>
            assert results + [] == results;
            HandleIdleResultsLoop(r.refused, r.text, reactions);
          case Callback(_) =>
            results := results + [Outcome(r.refused, r.text)];
            React(reactions);
        }
      }
    }

    /**
     The server takes one line. It never gets a request while it waits in idle; a
     `noidle` outside idle is ignored.
     */
    method ServerReads(refuse: bool, refuseIdle: bool, text: string)
      requires Valid() && toServer != []
      modifies `toServer, `toClient, `waiting, `taken, `answers
      ensures Valid() && toServer == old(toServer)[1..]
      ensures old(waiting).Some? ==> old(toServer)[0].NoIdle? && waiting == None
      ensures taken == old(taken) + TextOf(old(toServer)[0])
      ensures answers == old(answers) + if old(toServer)[0].Command? then [Outcome(refuse, text)] else []
      ensures NoneRefused(old(toClient)) && !refuseIdle ==> NoneRefused(toClient)
    {
      hide Wired, EndsIdle, InOrder, Kept;
      if waiting.Some? {
        WaitingGetsNoIdle(msgHandlerQueue, idling, toClient, waiting, toServer);
      }
      if !toServer[0].Command? {
        KeptTake(accepted, taken, answers, results, toServer, toClient);
        assert taken + [] == taken && answers + [] == answers;
      }
      match toServer[0] {
        case NoIdle =>
          if waiting.Some? {
            var reply := Answer(waiting.value, true, false, "");
            KeptReply(accepted, taken, answers, results, toServer[1..], toClient, reply);
            WiredWake(msgHandlerQueue, idling, toClient, waiting, toServer, reply);
            toClient, waiting := toClient + [reply], None;
          }
          WiredSkip(msgHandlerQueue, idling, toClient, toServer);
        case Idle(id) =>
          if refuseIdle {
            var reply := Answer(id, true, true, text);
            KeptReply(accepted, taken, answers, results, toServer[1..], toClient, reply);
            WiredAnswer(msgHandlerQueue, idling, toClient, toServer, reply);
            toClient := toClient + [reply];
          } else {
            WiredWait(msgHandlerQueue, idling, toClient, toServer);
            waiting := Some(id);
          }
        case Command(id, command) =>
          var reply := Answer(id, false, refuse, text);
          KeptAnswer(accepted, taken, answers, results, toServer, toClient, reply);
          taken, answers := taken + [command], answers + [Outcome(refuse, text)];
          WiredAnswer(msgHandlerQueue, idling, toClient, toServer, reply);
          toClient := toClient + [reply];
      }
      toServer := toServer[1..];
    }

    /** Something changes while the server waits in idle: it answers the idle on its own. */
    method ServerChanges(names: seq<string>)
      requires Valid() && waiting.Some?
      modifies `toClient, `waiting
      ensures Valid() && waiting == None
      ensures toClient == old(toClient) + [Answer(old(waiting).value, true, false, ChangedText(names))]
    {
      hide Wired, EndsIdle, InOrder, ChangedText, Kept;
      var reply := Answer(waiting.value, true, false, ChangedText(names));
      KeptReply(accepted, taken, answers, results, toServer, toClient, reply);
      WiredWake(msgHandlerQueue, idling, toClient, waiting, toServer, reply);
      toClient, waiting := toClient + [reply], None;
    }
  }

  lemma StaysGreeted(s: Session)
    requires s.Valid() && s.idling
    ensures Greeting !in s.toClient
  {}

  // ----- whole runs -----

  datatype Step =
    | Send(text: string)
    | Receive(reactions: seq<string>)
    | ServerReads(refuse: bool, refuseIdle: bool, text: string)
    | ServerChanges(names: seq<string>)

  /** The server refuses no `idle`; commands may fail. */
  predicate IdleNeverRefused(steps: seq<Step>) {
    forall i :: 0 <= i < |steps| ==> !(steps[i].ServerReads? && steps[i].refuseIdle)
  }

  predicate NoneRefused(replies: seq<Reply>) {
    forall i :: 0 <= i < |replies| ==> !(replies[i].Answer? && replies[i].idle && replies[i].refused)
  }

  /** A greeted client has a standing idle, and no refusal of one is under way. */
  ghost predicate Listening(s: Session)
    reads s
  {
    NoneRefused(s.toClient) && (s.idling ==> s.msgHandlerQueue != [])
  }

  /** The application sends nothing from inside its callbacks. */
  predicate NoReactions(steps: seq<Step>) {
    forall i :: 0 <= i < |steps| && steps[i].Receive? ==> steps[i].reactions == []
  }

  function Sent(steps: seq<Step>): seq<string> {
    if steps == [] then []
    else
      var last := steps[|steps| - 1];
      Sent(steps[..|steps| - 1]) + if last.Send? then [last.text] else []
  }

  method Take(s: Session, step: Step)
    requires s.Valid()
    modifies s
    ensures s.Valid() && (old(s.idling) ==> s.idling)
    ensures old(Listening(s)) && !(step.ServerReads? && step.refuseIdle) ==> Listening(s)
    ensures s.accepted == old(s.accepted) +
      match step
      case Send(text) => if old(s.idling) then [text] else []
      case Receive(reactions) => if old(s.toClient) != [] then reactions else []
      case _ => []
    ensures s.taken == old(s.taken) +
      if step.ServerReads? && old(s.toServer) != [] then TextOf(old(s.toServer)[0]) else []
    ensures s.results == old(s.results) +
      if step.Receive? && old(s.toClient) != [] then OutcomeOf(old(s.toClient)[0]) else []
  {
    hide Wired, EndsIdle, InOrder, Kept;
    match step {
      case Send(text) => var ok := s.SendCommand(text);
      case Receive(reactions) =>
        if s.toClient != [] { s.Receive(reactions); }
      case ServerReads(refuse, refuseIdle, text) =>
        if s.toServer != [] { s.ServerReads(refuse, refuseIdle, text); }
      case ServerChanges(names) =>
        if s.waiting.Some? { s.ServerChanges(names); }
    }
  }

  /**
   Every interleaving keeps the queue matched; when the server refuses no `idle`, a
   greeted client always ends its queue with an idle handler. The server takes the
   commands accepted for sending, in order, and each callback is given the answer to
   its own command.
   */
  method Run(s: Session, steps: seq<Step>)
    requires s.Valid()
    modifies s
    ensures s.Valid()
    ensures IdleNeverRefused(steps) && old(Listening(s)) && s.idling ==>
      s.msgHandlerQueue != [] && s.msgHandlerQueue[|s.msgHandlerQueue| - 1].IdleLoop?
    ensures s.taken + Texts(s.toServer) == s.accepted
    ensures s.results + Outcomes(s.toClient) == s.answers && |s.answers| == |s.taken|
    ensures old(s.accepted) <= s.accepted && old(s.taken) <= s.taken && old(s.results) <= s.results
    ensures old(s.idling) && NoReactions(steps) ==> s.accepted == old(s.accepted) + Sent(steps)
  {
    hide Wired, InOrder, Kept;
    for i := 0 to |steps|
      invariant s.Valid() && (old(s.idling) ==> s.idling)
      invariant IdleNeverRefused(steps) && old(Listening(s)) ==> Listening(s)
      invariant old(s.accepted) <= s.accepted && old(s.taken) <= s.taken && old(s.results) <= s.results
      invariant old(s.idling) && NoReactions(steps) ==> s.accepted == old(s.accepted) + Sent(steps[..i])
    {
      Take(s, steps[i]);
      assert steps[..i + 1][..i] == steps[..i];
    }
    assert steps[..|steps|] == steps;
    KeptMeans(s.accepted, s.taken, s.answers, s.results, s.toServer, s.toClient);
  }

  lemma KeptMeans(accepted: seq<string>, taken: seq<string>, answers: seq<Outcome>, results: seq<Outcome>,
                  toServer: seq<Line>, toClient: seq<Reply>)
    requires Kept(accepted, taken, answers, results, toServer, toClient)
    ensures taken + Texts(toServer) == accepted
    ensures results + Outcomes(toClient) == answers && |answers| == |taken|
  {}

  /** At rest the server waits in idle for exactly the one handler queued. */
  lemma RestsIdle(s: Session)
    requires s.Valid() && s.msgHandlerQueue != [] && s.toClient == [] && s.toServer == []
    ensures s.waiting.Some? && s.msgHandlerQueue == [IdleLoop(s.waiting.value)]
  {
    assert Answered([]) == [] && Awaited([]) == [];
    assert [] + Standing(s.waiting) + [] == Standing(s.waiting);
  }
}
