/** The per-browser session of the chat page: the keys the page keeps across
    its reruns and the transitions each rerun branch applies to them.

    `Store` is the value of the session keys; the functions below give the
    session after each branch, and `SessionState` is the mutable session the
    page works on, each of its methods proved to perform one of them. */
module Session {
  import opened Options
  import opened PyStr
  import Blurb
  import opened Gemini

  /** The session keys; `None` is a key that is not set. */
  datatype Store = Store(
    personaPrompt: Option<string>,
    charProfile: Option<string>,
    charBrief: Option<string>,
    conversation: Option<seq<Turn>>,
    charName: Option<string>,
    pendingUserMessage: Option<string>,
    shouldClearInput: Option<bool>,
    userInputChat: Option<string>)

  /** A session with no key set: a new visit, or one just ended. */
  const EMPTY: Store := Store(None, None, None, None, None, None, None, None)

  /** The text of the System entry that opens every transcript. */
  const CREATED_NOTICE: string := "A new character has been created!"

  /** A transcript opens with a System entry, then holds complete
      exchanges. */
  ghost predicate WellFormedTranscript(c: seq<Turn>) {
    |c| >= 1 && c[0].role == System && Exchanges(c[1..])
  }

  /** Complete exchanges: each a non-empty User entry followed by a
      Character entry. */
  ghost predicate Exchanges(c: seq<Turn>)
    decreases |c|
  {
    c == [] ||
    (|c| >= 2 && c[0].role == User && c[0].text != "" && c[1].role == Character && Exchanges(c[2..]))
  }

  /** The session invariant: a transcript exists exactly when a persona
      does; with the persona come the profile, its blurb and the name; and
      the transcript is well formed. */
  ghost predicate Inv(s: Store) {
    (s.conversation.Some? <==> s.personaPrompt.Some?) &&
    (s.personaPrompt.Some? ==>
       s.charProfile.Some? && s.charName.Some? &&
       s.charBrief == Some(Blurb.Brief(s.charProfile.value, Blurb.DEFAULT_MAX_LEN))) &&
    (s.conversation.Some? ==> WellFormedTranscript(s.conversation.value))
  }

  /** The text of the chat input, `""` when its key is not set. */
  function Input(s: Store): string {
    s.userInputChat.GetOr("")
  }

  /** `queue_user_message` (defined, but never called by the page): a blank
      input is ignored; otherwise the stripped
      input becomes the pending message and the clear flag is raised.
      Nothing else changes. */
  function Queued(s: Store): (r: Store)
    ensures AllSpace(Input(s)) ==> r == s
    ensures !AllSpace(Input(s)) ==>
              r.pendingUserMessage == Some(Strip(Input(s))) && r.shouldClearInput == Some(true)
    ensures r.pendingUserMessage.Some? && r.pendingUserMessage != s.pendingUserMessage ==>
              r.pendingUserMessage.value != "" && IsTrimmed(r.pendingUserMessage.value)
    ensures r.(pendingUserMessage := s.pendingUserMessage, shouldClearInput := s.shouldClearInput) == s
    ensures Inv(s) ==> Inv(r)
  {
    var message := Strip(Input(s));
    if message != "" then s.(pendingUserMessage := Some(message), shouldClearInput := Some(true)) else s
  }

  /** The input's `on_change` callback, a `setdefault`: a pending message is
      never overwritten; when there is none, the stripped input is staged,
      even when it is "". Afterwards a pending message always exists. */
  function StagedOnChange(s: Store): (r: Store)
    ensures s.pendingUserMessage.Some? ==> r == s
    ensures s.pendingUserMessage.None? ==> r.pendingUserMessage == Some(Strip(Input(s)))
    ensures r.pendingUserMessage.Some?
    ensures r.(pendingUserMessage := s.pendingUserMessage) == s
    ensures Inv(s) ==> Inv(r)
  {
    if s.pendingUserMessage.Some? then s
    else s.(pendingUserMessage := Some(Strip(Input(s))))
  }

  /** The Send button: a non-empty input overwrites the pending message as
      it is, without stripping; an empty input changes nothing. */
  function StagedSend(s: Store): (r: Store)
    ensures Input(s) == "" ==> r == s
    ensures Input(s) != "" ==> r.pendingUserMessage == Some(Input(s))
    ensures r.(pendingUserMessage := s.pendingUserMessage) == s
    ensures Inv(s) ==> Inv(r)
  {
    if Input(s) != "" then s.(pendingUserMessage := s.userInputChat) else s
  }

  /** The create-character button: a failed creation changes nothing; a
      created character sets the persona, the profile, its blurb, the name
      and a fresh one-entry transcript together, which establishes the
      invariant whatever the session held before; the chat keys are kept. */
  function Created(s: Store, data: Option<CharData>, name: string): (r: Store)
    ensures data.None? ==> r == s
    ensures data.Some? ==> Inv(r)
    ensures data.Some? ==>
              r.personaPrompt == Some(data.value.personaPrompt) &&
              r.charProfile == Some(data.value.profileText) &&
              r.charName == Some(name) &&
              r.conversation == Some([Turn(System, CREATED_NOTICE)])
    ensures r.pendingUserMessage == s.pendingUserMessage && r.shouldClearInput == s.shouldClearInput &&
            r.userInputChat == s.userInputChat
    ensures Inv(s) ==> Inv(r)
  {
    match data
    case None => s
    case Some(d) =>
      s.(personaPrompt := Some(d.personaPrompt),
         charProfile := Some(d.profileText),
         charBrief := Some(Blurb.Brief(d.profileText, Blurb.DEFAULT_MAX_LEN)),
         conversation := Some([Turn(System, CREATED_NOTICE)]),
         charName := Some(name))
  }

  /** A created character, spelled out as the session it leaves. */
  lemma CreatedCharacter(s: Store, d: CharData, name: string) returns (after: Store)
    ensures after == Store(Some(d.personaPrompt), Some(d.profileText),
                           Some(Blurb.Brief(d.profileText, Blurb.DEFAULT_MAX_LEN)),
                           Some([Turn(System, CREATED_NOTICE)]), Some(name),
                           s.pendingUserMessage, s.shouldClearInput, s.userInputChat)
    ensures Created(s, Some(d), name) == after && Inv(after)
  {
    after := Created(s, Some(d), name);
  }

  /** The pending-message branch of the chat section, which runs only once a
      persona exists: the pending message is popped; a non-empty one adds
      exactly a User entry with it and then a Character entry with the reply,
      leaving the earlier entries as they were, and empties the input; an
      empty or missing one changes nothing else. */
  function Processed(s: Store, outcome: Option<string>): (r: Store)
    requires s.personaPrompt.Some? ==> s.conversation.Some?
    ensures s.personaPrompt.None? ==> r == s
    ensures s.personaPrompt.Some? ==> r.pendingUserMessage.None?
    ensures s.personaPrompt.Some? && s.pendingUserMessage.GetOr("") == "" ==>
              r == s.(pendingUserMessage := None)
    ensures s.personaPrompt.Some? && s.pendingUserMessage.GetOr("") != "" ==>
              var message := s.pendingUserMessage.value;
              r.conversation == Some(s.conversation.value + [Turn(User, message), Turn(Character, ChatReply(outcome))]) &&
              r.userInputChat == Some("") &&
              r.(conversation := s.conversation, userInputChat := s.userInputChat, pendingUserMessage := s.pendingUserMessage) == s
    ensures Inv(s) ==> Inv(r)
  {
    if s.personaPrompt.None? then s
    else
      if s.pendingUserMessage.GetOr("") != "" then
        var message := s.pendingUserMessage.value;
        var withUser := s.conversation.value + [Turn(User, message)];
        var after := s.(pendingUserMessage := None,
                        conversation := Some(withUser + [Turn(Character, ChatReply(outcome))]),
                        userInputChat := Some(""));
        assert withUser + [Turn(Character, ChatReply(outcome))] ==
               s.conversation.value + [Turn(User, message), Turn(Character, ChatReply(outcome))];
        assert Inv(s) ==> Inv(after) by {
          if Inv(s) {
            AppendExchangeKeepsShape(s.conversation.value, message, ChatReply(outcome));
          }
        }
        after
      else s.(pendingUserMessage := None)
  }

  /** The prompt the pending-message branch sends, if it sends one: it is
      built after the User entry is appended, so the message is both the last
      history line and the closing line. */
  function SentPrompt(s: Store): (r: Option<string>)
    requires s.personaPrompt.Some? ==> s.conversation.Some?
    ensures r.Some? <==> s.personaPrompt.Some? && s.pendingUserMessage.GetOr("") != ""
    ensures r.Some? ==>
              var message := s.pendingUserMessage.value;
              StartsWith(r.value, s.personaPrompt.value) &&
              EndsWith(r.value, TurnLine(Turn(User, message)) + Closing(message))
  {
    if s.personaPrompt.Some? && s.pendingUserMessage.GetOr("") != "" then
      var message := s.pendingUserMessage.value;
      AppendedMessageRepeated(s.personaPrompt.value, s.conversation.value, message);
      Some(ChatPrompt(s.personaPrompt.value, s.conversation.value + [Turn(User, message)], message))
    else None
  }

  /** The two outcomes of the pending-message branch, spelled out as the
      session it leaves and the prompt it sends. */
  lemma ProcessedExchange(s: Store, outcome: Option<string>) returns (after: Store)
    requires Inv(s) && s.personaPrompt.Some? && s.pendingUserMessage.GetOr("") != ""
    ensures var message := s.pendingUserMessage.value;
            after == Store(s.personaPrompt, s.charProfile, s.charBrief,
                           Some(s.conversation.value + [Turn(User, message)] + [Turn(Character, ChatReply(outcome))]),
                           s.charName, None, s.shouldClearInput, Some("")) &&
            SentPrompt(s) == Some(ChatPrompt(s.personaPrompt.value, s.conversation.value + [Turn(User, message)], message))
    ensures Processed(s, outcome) == after && Inv(after)
  {
    var message := s.pendingUserMessage.value;
    assert s.conversation.value + [Turn(User, message)] + [Turn(Character, ChatReply(outcome))] ==
           s.conversation.value + [Turn(User, message), Turn(Character, ChatReply(outcome))];
    after := Processed(s, outcome);
  }

  lemma ProcessedNothing(s: Store, outcome: Option<string>)
    requires Inv(s) && s.personaPrompt.Some? && s.pendingUserMessage.GetOr("") == ""
    ensures Processed(s, outcome) == s.(pendingUserMessage := None) && Inv(s.(pendingUserMessage := None))
    ensures SentPrompt(s).None?
  {
  }

  /** The end-session button deletes every key: the session is empty again,
      which satisfies the invariant. */
  function Cleared(s: Store): (r: Store)
    ensures r.personaPrompt.None? && r.conversation.None? && r.pendingUserMessage.None?
    ensures r == EMPTY && Inv(r)
  {
    EMPTY
  }

  /** Appending a User entry with a non-empty text and a Character entry keeps
      a transcript well formed. */
  lemma AppendExchangeKeepsShape(c: seq<Turn>, message: string, reply: string)
    requires WellFormedTranscript(c) && message != ""
    ensures WellFormedTranscript(c + [Turn(User, message), Turn(Character, reply)])
  {
    var exchange := [Turn(User, message), Turn(Character, reply)];
    AppendExchange(c[1..], exchange);
    assert (c + exchange)[1..] == c[1..] + exchange;
  }

  lemma {:induction false} AppendExchange(c: seq<Turn>, exchange: seq<Turn>)
    requires Exchanges(c) && Exchanges(exchange)
    ensures Exchanges(c + exchange)
    decreases |c|
  {
    if c != [] {
      assert (c + exchange)[2..] == c[2..] + exchange;
      AppendExchange(c[2..], exchange);
    } else {
      assert c + exchange == exchange;
    }
  }

  /** One interaction with the page, as the session sees it. The page never
      calls `queue_user_message`, so `QueueMessage` does not occur on the
      page as it stands; it is kept so that the invariant covers that
      helper too. */
  datatype Event =
    | Typed(text: string)                          // the user edits the input box
    | QueueMessage                                 // `queue_user_message`, if it were called
    | InputChanged                                 // the input's `on_change` callback
    | SendClicked                                  // the Send button
    | CreateClicked(data: Option<CharData>, name: string)  // the create button
    | ChatRerun(outcome: Option<string>)           // the chat section runs
    | EndClicked                                   // the end-session button

  /** The session after one interaction; the invariant is kept by each. */
  function Step(s: Store, e: Event): (r: Store)
    requires Inv(s)
    ensures Inv(r)
  {
    match e
    case Typed(text) => s.(userInputChat := Some(text))
    case QueueMessage => Queued(s)
    case InputChanged => StagedOnChange(s)
    case SendClicked => StagedSend(s)
    case CreateClicked(data, name) => Created(s, data, name)
    case ChatRerun(outcome) => Processed(s, outcome)
    case EndClicked => Cleared(s)
  }

  /** The session after a sequence of interactions; from any session that
      satisfies the invariant, and so from the empty one, every reachable
      session satisfies it. */
  function Run(s: Store, events: seq<Event>): (r: Store)
    requires Inv(s)
    ensures Inv(r)
    decreases |events|
  {
    if events == [] then s else Run(Step(s, events[0]), events[1..])
  }

  /** An event that replaces or deletes the transcript. */
  predicate RestartsTranscript(e: Event) {
    (e.CreateClicked? && e.data.Some?) || e.EndClicked?
  }

  /** The transcript only grows: as long as no character is created again
      and the session is not ended, every earlier entry stays where it was. */
  lemma {:induction false} TranscriptOnlyGrows(s: Store, events: seq<Event>)
    requires Inv(s) && s.conversation.Some?
    requires forall i :: 0 <= i < |events| ==> !RestartsTranscript(events[i])
    ensures Run(s, events).conversation.Some?
    ensures s.conversation.value <= Run(s, events).conversation.value
    decreases |events|
  {
    if events != [] {
      var next := Step(s, events[0]);
      assert next.conversation.Some? && s.conversation.value <= next.conversation.value by {
        assert !RestartsTranscript(events[0]);
      }
      TranscriptOnlyGrows(next, events[1..]);
    }
  }

  /** A message that is whitespace only would be dropped by
      `queue_user_message`, which the page never calls, but not by the Send
      path the page uses: the `on_change` callback stages "", Send
      overwrites it with the unstripped input, and the next rerun appends it
      to the transcript as a User entry. */
  lemma BlankMessageSentBySend(s: Store, outcome: Option<string>)
    requires Inv(s) && s.personaPrompt.Some? && s.pendingUserMessage.None?
    requires Input(s) != "" && AllSpace(Input(s))
    ensures Queued(s) == s
    ensures Processed(StagedSend(StagedOnChange(s)), outcome).conversation ==
              Some(s.conversation.value + [Turn(User, Input(s)), Turn(Character, ChatReply(outcome))])
  {
    assert StagedOnChange(s).pendingUserMessage == Some("");
  }

  /** The session of the page, updated in place by each rerun branch. */
  class SessionState {
    var personaPrompt: Option<string>
    var charProfile: Option<string>
    var charBrief: Option<string>
    var conversation: Option<seq<Turn>>
    var charName: Option<string>
    var pendingUserMessage: Option<string>
    var shouldClearInput: Option<bool>
    var userInputChat: Option<string>

    /** The current value of the session keys. */
    function Keys(): Store
      reads this
    {
      Store(personaPrompt, charProfile, charBrief, conversation, charName,
            pendingUserMessage, shouldClearInput, userInputChat)
    }

    ghost predicate Valid()
      reads this
    {
      Inv(Keys())
    }

    /** A new session has no key set. */
    constructor ()
      ensures Keys() == EMPTY && Valid()
    {
      personaPrompt, charProfile, charBrief, conversation := None, None, None, None;
      charName, pendingUserMessage, shouldClearInput, userInputChat := None, None, None, None;
    }

    method QueueUserMessage()
      requires Valid()
      modifies this
      ensures Valid() && Keys() == Queued(old(Keys()))
    {
      var message := Strip(userInputChat.GetOr(""));
      if message != "" {
        pendingUserMessage := Some(message);
        shouldClearInput := Some(true);
      }
    }

    method OnInputChange()
      requires Valid()
      modifies this
      ensures Valid() && Keys() == StagedOnChange(old(Keys()))
    {
      if pendingUserMessage.None? {
        pendingUserMessage := Some(Strip(userInputChat.GetOr("")));
      }
    }

    method OnSend()
      requires Valid()
      modifies this
      ensures Valid() && Keys() == StagedSend(old(Keys()))
    {
      var userMessage := userInputChat.GetOr("");
      if userMessage != "" {
        pendingUserMessage := Some(userMessage);
      }
    }

    /** Stores a created character; `data` is `None` when creation failed. */
    method OnCreate(data: Option<CharData>, name: string)
      requires Valid()
      modifies this
      ensures Valid() && Keys() == Created(old(Keys()), data, name)
    {
      if data.Some? {
        var d := data.value;
        var brief := Blurb.BuildBrief(d.profileText, Blurb.DEFAULT_MAX_LEN);
        ghost var after := CreatedCharacter(Keys(), d, name);
        personaPrompt, charProfile, charBrief := Some(d.personaPrompt), Some(d.profileText), Some(brief);
        conversation, charName := Some([Turn(System, CREATED_NOTICE)]), Some(name);
        assert Keys() == after;
      }
    }

    /** The pending-message branch; `outcome` is the model's reply, `None`
        when the call raised. Returns the prompt sent, if any. */
    method ProcessPending(outcome: Option<string>) returns (prompt: Option<string>)
      requires Valid()
      modifies this
      ensures Valid() && Keys() == Processed(old(Keys()), outcome)
      ensures prompt == SentPrompt(old(Keys()))
    {
      ghost var before := Keys();
      if personaPrompt.None? {
        return None;
      }
      var pending := pendingUserMessage;
      pendingUserMessage := None;
      if pending.Some? && pending.value != "" {
        ghost var after := ProcessedExchange(before, outcome);
        var message := pending.value;
        conversation := Some(conversation.value + [Turn(User, message)]);
        var sent := BuildChatPrompt(personaPrompt.value, conversation.value, message);
        prompt := Some(sent);
        var response := ChatReply(outcome);
        conversation := Some(conversation.value + [Turn(Character, response)]);
        userInputChat := Some("");
        assert Keys() == after;
      } else {
        ProcessedNothing(before, outcome);
        prompt := None;
      }
    }

    method EndSession()
      requires Valid()
      modifies this
      ensures Valid() && Keys() == Cleared(old(Keys()))
    {
      personaPrompt, charProfile, charBrief, conversation := None, None, None, None;
      charName, pendingUserMessage, shouldClearInput, userInputChat := None, None, None, None;
    }
  }
}
