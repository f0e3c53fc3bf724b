/** The transcript of the floating chat widget of
    components/GeminiAssistant.tsx: a send appends the user's message and a
    loading placeholder, and the reply replaces every placeholder. */
module ChatAssistant {
  import opened Seqs
  import opened JsStrings

  datatype Role = User | Model

  /** One chat message; an absent `isLoading` is falsy and is `false` here. */
  datatype ChatMessage = ChatMessage(role: Role, text: string, isLoading: bool)

  /** The widget's transcript and the contents of its input box. */
  datatype ChatState = ChatState(input: string, messages: seq<ChatMessage>)

  /** The first half of `handleSend`, up to the awaited reply: either the
      guard returned, or the transcript now awaits the reply to `prompt`. */
  datatype SendStart = Ignored | Awaiting(state: ChatState, prompt: string)

  const Welcome: string := "Welcome to the construct. Query the architecture."
  const Ellipsis: string := "..."

  const LoadingMessage: ChatMessage := ChatMessage(Model, Ellipsis, true)

  /** The widget's state when it is mounted. */
  const InitialState: ChatState := ChatState("", [ChatMessage(Model, Welcome, false)])

  predicate NotLoading(m: ChatMessage) {
    !m.isLoading
  }

  /** No placeholder is waiting for a reply. */
  predicate AtRest(messages: seq<ChatMessage>) {
    forall i :: 0 <= i < |messages| ==> !messages[i].isLoading
  }

  /** `!input.trim()`: the guard that makes a send do nothing. */
  predicate IsBlank(input: string) {
    Trim(input) == []
  }

  /** Lines 23-30: the guard, the user's message (its text untrimmed), the
      cleared input and the loading placeholder. */
  function BeginSend(st: ChatState): (r: SendStart)
    ensures r == Ignored <==> AllWhitespace(st.input)
    ensures r.Awaiting? ==>
              r.prompt == st.input
              && r.state.input == ""
              && |r.state.messages| == |st.messages| + 2
              && r.state.messages[..|st.messages|] == st.messages
              && r.state.messages[|st.messages|] == ChatMessage(User, st.input, false)
              && r.state.messages[|st.messages| + 1] == LoadingMessage
  {
    TrimEmptyIff(st.input);
    if IsBlank(st.input) then Ignored
    else
      var userMsg := ChatMessage(User, st.input, false);
      Awaiting(ChatState("", st.messages + [userMsg] + [LoadingMessage]), st.input)
  }

  /** Lines 34-37: every placeholder is dropped and the reply appended. The
      input box is left as the user may have retyped it meanwhile. */
  function FinishSend(st: ChatState, reply: string): (r: ChatState)
    ensures r.input == st.input
    ensures AtRest(r.messages)
    ensures |r.messages| > 0 && r.messages[|r.messages| - 1] == ChatMessage(Model, reply, false)
    ensures r.messages[..|r.messages| - 1] == Filter(st.messages, NotLoading)
  {
    var kept := Filter(st.messages, NotLoading);
    var r := ChatState(st.input, kept + [ChatMessage(Model, reply, false)]);
    assert r.messages[..|r.messages| - 1] == kept;
    r
  }

  /** One whole `handleSend`, with `respond` standing for the reply service:
      it is asked about the untrimmed input. */
  function HandleSend(st: ChatState, respond: string -> string): (r: ChatState)
    ensures AllWhitespace(st.input) ==> r == st
    ensures !AllWhitespace(st.input) ==>
              r.input == ""
              && r.messages == Filter(st.messages, NotLoading)
                               + [ChatMessage(User, st.input, false),
                                  ChatMessage(Model, respond(st.input), false)]
  {
    match BeginSend(st)
    case Ignored => st
    case Awaiting(waiting, prompt) =>
      FilterAwaiting(st.messages, ChatMessage(User, st.input, false));
      FinishSend(waiting, respond(prompt))
  }

  /** Dropping placeholders from an awaiting transcript drops exactly the
      new placeholder and the earlier ones, and keeps the user's message. */
  lemma FilterAwaiting(messages: seq<ChatMessage>, user: ChatMessage)
    requires !user.isLoading
    ensures Filter(messages + [user] + [LoadingMessage], NotLoading)
              == Filter(messages, NotLoading) + [user]
  {
    FilterAppend(messages + [user], [LoadingMessage], NotLoading);
    FilterAppend(messages, [user], NotLoading);
  }

  /** The widget starts with exactly one settled welcome message from the
      model and an empty input. */
  lemma InitialTranscript()
    ensures |InitialState.messages| == 1
    ensures InitialState.messages[0].role == Model && !InitialState.messages[0].isLoading
    ensures AtRest(InitialState.messages) && InitialState.input == ""
  {
  }

  /** A blank or whitespace-only input leaves the transcript and the input
      as they were. */
  lemma BlankInputIgnored(st: ChatState, respond: string -> string)
    requires AllWhitespace(st.input)
    ensures HandleSend(st, respond) == st
  {
  }

  /** While a send from rest awaits its reply, exactly one message is
      loading, and it is the last one. */
  lemma AwaitingEndsWithOnePlaceholder(st: ChatState)
    requires AtRest(st.messages) && !AllWhitespace(st.input)
    ensures var w := BeginSend(st).state.messages;
            w[|w| - 1].isLoading
            && forall i :: 0 <= i < |w| - 1 ==> !w[i].isLoading
  {
    var w := BeginSend(st).state.messages;
    assert forall i :: 0 <= i < |st.messages| ==> w[i] == st.messages[i];
  }

  /** A completed send from rest appends exactly the user's message and the
      reply to the transcript, clears the input and returns to rest. */
  lemma SendFromRest(st: ChatState, respond: string -> string)
    requires AtRest(st.messages) && !AllWhitespace(st.input)
    ensures HandleSend(st, respond).messages
              == st.messages + [ChatMessage(User, st.input, false), ChatMessage(Model, respond(st.input), false)]
    ensures HandleSend(st, respond).input == ""
    ensures AtRest(HandleSend(st, respond).messages)
  {
    var w := BeginSend(st).state;
    var user := ChatMessage(User, st.input, false);
    assert w.messages == (st.messages + [user]) + [LoadingMessage];
    FilterAppend(st.messages + [user], [LoadingMessage], NotLoading);
    FilterAppend(st.messages, [user], NotLoading);
    FilterAllKept(st.messages, NotLoading);
  }

  /** The messages that were settled before a send keep their order and
      content afterwards, whatever the transcript held. */
  lemma SettledMessagesKept(st: ChatState, respond: string -> string)
    requires !AllWhitespace(st.input)
    ensures IsSubsequence(Filter(st.messages, NotLoading), HandleSend(st, respond).messages)
  {
    var w := BeginSend(st).state;
    var user := ChatMessage(User, st.input, false);
    assert w.messages == (st.messages + [user]) + [LoadingMessage];
    FilterAppend(st.messages + [user], [LoadingMessage], NotLoading);
    FilterAppend(st.messages, [user], NotLoading);
    var kept := Filter(st.messages, NotLoading);
    var reply := ChatMessage(Model, respond(st.input), false);
    assert HandleSend(st, respond).messages == kept + ([user] + [reply]);
    PrefixIsSubsequence(kept, [user] + [reply]);
  }

  /** With the transcript at rest, sending "Hi" and receiving "Hello" ends
      the transcript with the user's "Hi" and the model's "Hello", and no
      placeholder is left. */
  lemma HiHelloExchange(messages: seq<ChatMessage>, respond: string -> string)
    requires AtRest(messages) && respond("Hi") == "Hello"
    ensures var after := HandleSend(ChatState("Hi", messages), respond).messages;
            after[|after| - 2..] == [ChatMessage(User, "Hi", false), ChatMessage(Model, "Hello", false)]
            && AtRest(after)
  {
    var st := ChatState("Hi", messages);
    assert !IsJsWhitespace(st.input[0]);
    SendFromRest(st, respond);
  }
}
