/** The message loop of both servers, modelled once (`main_loop`). Messages arrive as
    already decoded values; the request handlers are parameters. The hover
    server handles definition and hover requests; the definition server
    handles definition requests only. */
module Dispatch {
  import opened LspTypes
  import Catalog
  import Definition

  /** A request id. The protocol also allows string ids; only equality of
      ids matters here, so integers stand for both. */
  type RequestId = int

  datatype Message =
    | Request(id: RequestId, name: string, params: TextDocumentPositionParams)
    | Response(id: RequestId)
    | Notification(name: string)

  const ShutdownMethod := "shutdown"
  const DefinitionMethod := "textDocument/definition"
  const HoverMethod := "textDocument/hover"

  datatype ResultValue = DefinitionResult(location: Option<Location>) | HoverResult(contents: string)

  /** A response the server sends: the request's id, a result, no error. */
  datatype Reply = Reply(id: RequestId, result: ResultValue, error: Option<string>)

  /** The request handlers a server runs; `hover` is absent for the
      definition-only server. */
  datatype Server = Server(
    definition: TextDocumentPositionParams -> Outcome<Option<Location>>,
    hover: Option<TextDocumentPositionParams -> Outcome<string>>)

  /** What handling one message amounts to. */
  datatype Action = Stop | Answer(reply: Reply) | Crash | Skip

  /** Why the loop ended: a shutdown request, the end of the message stream,
      or a panic in a handler. */
  datatype Exit = ShutDown | Disconnected | Panic

  datatype Run = Run(replies: seq<Reply>, exit: Exit)

  predicate IsShutdown(m: Message)
  {
    m.Request? && m.name == ShutdownMethod
  }

  /** The requests the server answers. */
  predicate IsHandled(server: Server, m: Message)
  {
    && m.Request?
    && (m.name == DefinitionMethod || (m.name == HoverMethod && server.hover.Some?))
  }

  /** One message: shutdown stops, a definition or hover request is answered
      with its own id and no error (or the handler panics), and anything else
      is only observed. */
  function Handle(server: Server, m: Message): (action: Action)
    ensures action == Stop <==> IsShutdown(m)
    ensures action.Answer? || action == Crash ==> IsHandled(server, m)
    ensures action == Skip <==> !IsShutdown(m) && !IsHandled(server, m)
    ensures action.Answer? ==> action.reply.id == m.id && action.reply.error == None
  {
    match m
    case Request(id, name, params) =>
      if name == ShutdownMethod then Stop
      else if name == DefinitionMethod then
        match server.definition(params)
        case Done(location) => Answer(Reply(id, DefinitionResult(location), None))
        case Panicked => Crash
      else if name == HoverMethod && server.hover.Some? then
        match server.hover.value(params)
        case Done(text) => Answer(Reply(id, HoverResult(text), None))
        case Panicked => Crash
      else Skip
    case Response(_) => Skip
    case Notification(_) => Skip
  }

  /** The loop over the message stream, one message at a time, in arrival order. */
  function Serve(server: Server, messages: seq<Message>): (run: Run)
    ensures |run.replies| <= |messages|
    decreases |messages|
  {
    if messages == [] then Run([], Disconnected)
    else
      match Handle(server, messages[0])
      case Stop => Run([], ShutDown)
      case Crash => Run([], Panic)
      case Skip => Serve(server, messages[1..])
      case Answer(reply) =>
        var rest := Serve(server, messages[1..]);
        Run([reply] + rest.replies, rest.exit)
  }

  /** `main_loop`: receive, handle, send, until shutdown or the end of the stream. */
  method MainLoop(server: Server, messages: seq<Message>) returns (run: Run)
    ensures run == Serve(server, messages)
  {
    var replies: seq<Reply> := [];
    var i := 0;
    while i < |messages|
      invariant i <= |messages|
      invariant Serve(server, messages) ==
                  var rest := Serve(server, messages[i..]);
                  Run(replies + rest.replies, rest.exit)
    {
      assert messages[i..][0] == messages[i] && messages[i..][1..] == messages[i + 1..];
      match Handle(server, messages[i]) {
        case Stop =>
          return Run(replies, ShutDown);
        case Crash =>
          return Run(replies, Panic);
        case Answer(reply) =>
          replies := replies + [reply];
        case Skip =>
      }
      i := i + 1;
    }
    assert messages[i..] == [];
    run := Run(replies, Disconnected);
  }

  /** Messages are handled in arrival order: the loop over two batches is the
      loop over the first, continued with the second only when the first
      batch neither shut down nor panicked. */
  lemma {:induction false} ServeConcat(server: Server, a: seq<Message>, b: seq<Message>)
    ensures Serve(server, a + b) ==
              if Serve(server, a).exit == Disconnected
              then Run(Serve(server, a).replies + Serve(server, b).replies, Serve(server, b).exit)
              else Serve(server, a)
  {
    if a == [] {
      assert a + b == b;
    } else {
      assert (a + b)[0] == a[0] && (a + b)[1..] == a[1..] + b;
      ServeConcat(server, a[1..], b);
    }
  }

  /** Nothing after a shutdown request is handled. */
  lemma ServeStopsAtShutdown(server: Server, before: seq<Message>, shutdown: Message, after: seq<Message>)
    requires IsShutdown(shutdown)
    ensures Serve(server, before + [shutdown] + after) ==
              if Serve(server, before).exit == Disconnected
              then Run(Serve(server, before).replies, ShutDown)
              else Serve(server, before)
  {
    ServeConcat(server, before + [shutdown], after);
    ServeConcat(server, before, [shutdown]);
    assert Serve(server, [shutdown]) == Run([], ShutDown);
  }

  /** The handler of a handled request does not panic. */
  predicate HandlerSucceeds(server: Server, m: Message)
    requires IsHandled(server, m)
  {
    if m.name == DefinitionMethod then server.definition(m.params).Done?
    else server.hover.value(m.params).Done?
  }

  /** No shutdown request, and no handled request whose handler panics. */
  predicate RunsToEnd(server: Server, messages: seq<Message>)
  {
    forall i :: 0 <= i < |messages| ==>
      !IsShutdown(messages[i]) && (IsHandled(server, messages[i]) ==> HandlerSucceeds(server, messages[i]))
  }

  /** The ids of the handled requests, in arrival order. */
  function HandledIds(server: Server, messages: seq<Message>): seq<RequestId>
  {
    if messages == [] then []
    else (if IsHandled(server, messages[0]) then [messages[0].id] else []) + HandledIds(server, messages[1..])
  }

  function ReplyIds(replies: seq<Reply>): seq<RequestId>
  {
    if replies == [] then [] else [replies[0].id] + ReplyIds(replies[1..])
  }

  /** The loop consumes the whole stream exactly when no shutdown arrives and
      no handler panics; it then answers every handled request once, in
      arrival order, with the request's id and no error. */
  lemma {:induction false} ServeAnswersEveryRequest(server: Server, messages: seq<Message>)
    ensures Serve(server, messages).exit == Disconnected <==> RunsToEnd(server, messages)
    ensures Serve(server, messages).exit == Disconnected ==>
              ReplyIds(Serve(server, messages).replies) == HandledIds(server, messages)
    ensures forall k :: 0 <= k < |Serve(server, messages).replies| ==> Serve(server, messages).replies[k].error == None
  {
    if messages != [] {
      ServeAnswersEveryRequest(server, messages[1..]);
      var m := messages[0];
      assert forall i :: 1 <= i < |messages| ==> messages[i] == messages[1..][i - 1];
      if RunsToEnd(server, messages[1..]) && !IsShutdown(m) && (IsHandled(server, m) ==> HandlerSucceeds(server, m)) {
        forall i | 0 <= i < |messages|
          ensures !IsShutdown(messages[i]) && (IsHandled(server, messages[i]) ==> HandlerSucceeds(server, messages[i]))
        {
          if i > 0 {
            assert messages[i] == messages[1..][i - 1];
          }
        }
      }
    }
  }

  /** The hover server (`src/main.rs`): its definition handler is a parameter,
      its hover handler reads the catalog and the document store. */
  function HoverServer(
    catalog: Catalog.InstructionMap,
    docs: map<Uri, seq<string>>,
    definition: TextDocumentPositionParams -> Outcome<Option<Location>>): (server: Server)
    ensures server.hover.Some? && server.definition == definition
  {
    Server(definition, Some((params: TextDocumentPositionParams) => Catalog.HoverOutcome(catalog, docs, params)))
  }

  /** The definition server (`src/main_gd.rs`): definition requests only. */
  function DefinitionServer(docs: map<Uri, seq<string>>): (server: Server)
    ensures server.hover.None?
  {
    Server((params: TextDocumentPositionParams) => Definition.DefinitionOutcome(docs, params), None)
  }

  /** A hover request to the hover server is answered with the record text
      of the word under the cursor, or the loop panics. */
  lemma HoverServerAnswersHover(
    catalog: Catalog.InstructionMap,
    docs: map<Uri, seq<string>>,
    definition: TextDocumentPositionParams -> Outcome<Option<Location>>,
    id: RequestId,
    params: TextDocumentPositionParams)
    ensures var run := Serve(HoverServer(catalog, docs, definition), [Request(id, HoverMethod, params)]);
            if Catalog.CanHover(catalog, docs, params)
            then run == Run([Reply(id, HoverResult(Catalog.HoverOutcome(catalog, docs, params).value), None)], Disconnected)
            else run == Run([], Panic)
  {
    var m := Request(id, HoverMethod, params);
    assert [m][1..] == [];
  }

  /** A definition request to the definition server is answered with the
      location of the first definition of the word at the cursor, or the
      loop panics. */
  lemma DefinitionServerAnswersDefinition(docs: map<Uri, seq<string>>, id: RequestId, params: TextDocumentPositionParams)
    ensures var run := Serve(DefinitionServer(docs), [Request(id, DefinitionMethod, params)]);
            if Definition.CanDefine(docs, params)
            then run == Run([Reply(id, DefinitionResult(Definition.TextDocumentDefinition(docs[params.uri], params)), None)], Disconnected)
            else run == Run([], Panic)
  {
    var m := Request(id, DefinitionMethod, params);
    assert [m][1..] == [];
  }

  /** The definition server leaves hover requests unanswered. */
  lemma DefinitionServerIgnoresHover(docs: map<Uri, seq<string>>, id: RequestId, params: TextDocumentPositionParams)
    ensures Serve(DefinitionServer(docs), [Request(id, HoverMethod, params)]) == Run([], Disconnected)
  {
    var m := Request(id, HoverMethod, params);
    assert [m][1..] == [];
  }
}
