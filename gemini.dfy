/** What the application does around its three calls to the text and vision
    model: it cleans the vision reply before parsing it (`analyze_image`),
    builds the character from the profile reply (`create_character`), and
    builds the chat prompt from the persona, the recent transcript and the
    new message (`chat_with_character`). The calls themselves are not
    modelled: their replies come in as parameters, `None` standing for a
    call that raised. */
module Gemini {
  import opened Options
  import opened PyStr
  import Opposites

  // ---------------------------------------------------------------------
  // Image analysis
  // ---------------------------------------------------------------------

  const FENCE_OPEN: string := "```json"
  const FENCE_CLOSE: string := "```"

  /** The reply is wrapped in a JSON code fence. */
  predicate IsFenced(text: string) {
    StartsWith(text, FENCE_OPEN) && EndsWith(text, FENCE_CLOSE)
  }

  /** The opening and closing fences never overlap. */
  lemma FencedIsLong(text: string)
    requires IsFenced(text)
    ensures |text| >= |FENCE_OPEN| + |FENCE_CLOSE|
  {
    var k := |text| - |FENCE_CLOSE|;
    assert text[k] == '`' by {
      assert text[k] == text[k..][0];
    }
    assert forall i :: 0 <= i < |FENCE_OPEN| ==> text[i] == FENCE_OPEN[i] by {
      assert text[..|FENCE_OPEN|] == FENCE_OPEN;
    }
  }

  /** The fence removal of `analyze_image`: a fenced text loses the seven
      characters of the opening fence and the three of the closing one and
      is stripped again; any other text passes through unchanged. */
  function StripFence(text: string): (r: string)
    ensures !IsFenced(text) ==> r == text
    ensures IsFenced(text) ==> IsTrimmed(r) && |r| <= |text| - |FENCE_OPEN| - |FENCE_CLOSE|
  {
    if IsFenced(text) then
      FencedIsLong(text);
      Strip(text[|FENCE_OPEN|..|text| - |FENCE_CLOSE|])
    else text
  }

  /** The text handed to the JSON parser: the reply stripped, then unfenced.
      It never has surrounding whitespace. */
  function CleanReply(reply: string): (r: string)
    ensures IsTrimmed(r)
    ensures !IsFenced(Strip(reply)) ==> r == Strip(reply)
  {
    StripFence(Strip(reply))
  }

  /** Unfencing undoes fencing, up to stripping the body. */
  lemma UnfenceFenced(body: string)
    ensures StripFence(FENCE_OPEN + body + FENCE_CLOSE) == Strip(body)
  {
    var fenced := FENCE_OPEN + body + FENCE_CLOSE;
    assert fenced[..|FENCE_OPEN|] == FENCE_OPEN;
    assert fenced[|fenced| - |FENCE_CLOSE|..] == FENCE_CLOSE;
    assert fenced[|FENCE_OPEN|..|fenced| - |FENCE_CLOSE|] == body;
  }

  /** Fencing a body, even with whitespace around the fence, and cleaning
      the result gives back the stripped body. */
  lemma CleanFencedReply(lead: string, body: string, trail: string)
    requires AllSpace(lead) && AllSpace(trail)
    ensures CleanReply(lead + FENCE_OPEN + body + FENCE_CLOSE + trail) == Strip(body)
  {
    var fenced := FENCE_OPEN + body + FENCE_CLOSE;
    assert lead + FENCE_OPEN + body + FENCE_CLOSE + trail == lead + fenced + trail;
    assert IsTrimmed(fenced) by {
      assert fenced[0] == '`' && fenced[|fenced| - 1] == '`';
    }
    StripPadded(lead, fenced, trail);
    UnfenceFenced(body);
  }

  /** The two fields read from the parsed JSON object, each already turned
      into a string by `str`; `None` is a missing key. */
  datatype ParsedReply = ParsedReply(emotion: Option<string>, gender: Option<string>)

  datatype Detection = Detection(emotion: string, gender: string)

  /** The result of `analyze_image`, given the parsed reply, or `None` when
      the call, the parse or the field access raised: a failure reports
      "unknown" for both, a missing key reports "unknown" for that key, and
      the emotion always comes out in lower case. */
  function Analyze(parsed: Option<ParsedReply>): (d: Detection)
    ensures parsed.None? ==> d == Detection(Opposites.UNKNOWN, Opposites.UNKNOWN)
    ensures NoAsciiUpper(d.emotion)
    ensures parsed.Some? ==> d.gender == parsed.value.gender.GetOr(Opposites.UNKNOWN)
    ensures parsed.Some? && parsed.value.emotion.None? ==> d.emotion == Opposites.UNKNOWN
    ensures parsed.Some? && parsed.value.emotion.Some? ==> d.emotion == Lower(parsed.value.emotion.value)
  {
    match parsed
    case None => Detection(Opposites.UNKNOWN, Opposites.UNKNOWN)
    case Some(p) =>
      var emotion := if p.emotion.Some? then Lower(p.emotion.value) else Opposites.UNKNOWN;
      Detection(emotion, p.gender.GetOr(Opposites.UNKNOWN))
  }

  /** A failed analysis makes the character's targets the opposites of the
      manual picks alone. */
  lemma FailedAnalysisUsesPicks(pickedEmotion: string, pickedGender: string)
    requires pickedEmotion in Opposites.OPPOSITE_EMOTION && pickedGender in Opposites.OPPOSITE_GENDER
    ensures var d := Analyze(None);
            Opposites.CharacterTargets(d.emotion, d.gender, pickedEmotion, pickedGender)
              == Opposites.Targets(Opposites.OPPOSITE_GENDER[pickedGender],
                                   Opposites.OPPOSITE_EMOTION[pickedEmotion])
  {
  }

  // ---------------------------------------------------------------------
  // Character creation
  // ---------------------------------------------------------------------

  /** The fixed text placed before the profile in the persona prompt. */
  const PERSONA_INTRO: string := "You will now roleplay as the following character:\n\n"

  /** Stands for the fixed block of role-play rules placed after the profile
      in the persona prompt; its wording is not modelled. */
  const PERSONA_RULES: string := "\n\n[role-play rules]"

  datatype CharData = CharData(profileText: string, personaPrompt: string)

  /** `create_character`, given the profile reply (`None` when the call
      raised): no character on failure; otherwise the stripped reply is the
      profile, and the persona prompt embeds it between the fixed intro and
      the fixed rules. */
  function CreateCharacter(profileReply: Option<string>): (r: Option<CharData>)
    ensures r.Some? <==> profileReply.Some?
    ensures r.Some? ==> r.value.profileText == Strip(profileReply.value)
    ensures r.Some? ==> |r.value.personaPrompt| == |PERSONA_INTRO| + |r.value.profileText| + |PERSONA_RULES|
    ensures r.Some? ==> StartsWith(r.value.personaPrompt, PERSONA_INTRO)
                        && EndsWith(r.value.personaPrompt, PERSONA_RULES)
                        && r.value.personaPrompt[|PERSONA_INTRO|..|r.value.personaPrompt| - |PERSONA_RULES|]
                           == r.value.profileText
  {
    match profileReply
    case None => None
    case Some(reply) =>
      var profile := Strip(reply);
      var persona := PERSONA_INTRO + profile + PERSONA_RULES;
      assert persona[..|PERSONA_INTRO|] == PERSONA_INTRO;
      assert persona[|persona| - |PERSONA_RULES|..] == PERSONA_RULES;
      assert persona[|PERSONA_INTRO|..|persona| - |PERSONA_RULES|] == profile;
      Some(CharData(profile, persona))
  }

  // ---------------------------------------------------------------------
  // Chat
  // ---------------------------------------------------------------------

  datatype Role = System | User | Character

  /** One transcript entry: who spoke, and what. */
  datatype Turn = Turn(role: Role, text: string)

  function RoleName(role: Role): string {
    match role
    case System => "System"
    case User => "User"
    case Character => "Character"
  }

  /** How many of the latest transcript entries the prompt carries. */
  const HISTORY_WINDOW: nat := 6

  const HISTORY_HEADER: string := "\n\nConversation history:\n"

  /** The reply used when the chat call raised. */
  const CHAT_APOLOGY: string := "Sorry, I couldn't produce a response right now."

  /** `history[-6:]`: exactly the last min(6, |history|) entries, in their
      original order. */
  function Recent(history: seq<Turn>): (r: seq<Turn>)
    ensures |r| == if |history| < HISTORY_WINDOW then |history| else HISTORY_WINDOW
    ensures r == history[|history| - |r|..]
  {
    if |history| <= HISTORY_WINDOW then history else history[|history| - HISTORY_WINDOW..]
  }

  /** One history line of the prompt: `role: text` and a newline. */
  function TurnLine(t: Turn): string {
    RoleName(t.role) + ": " + t.text + "\n"
  }

  /** The history lines of the first `n` entries of `turns`, one after the
      other. */
  function RenderTurns(turns: seq<Turn>, n: nat): string
    requires n <= |turns|
  {
    if n == 0 then "" else RenderTurns(turns, n - 1) + TurnLine(turns[n - 1])
  }

  /** The closing line of the prompt. */
  function Closing(message: string): string {
    "User: " + message + "\nCharacter:"
  }

  /** The prompt `chat_with_character` sends: it starts with the persona and
      ends with the closing `User: <message>` line. */
  function ChatPrompt(persona: string, history: seq<Turn>, message: string): (r: string)
    ensures StartsWith(r, persona) && EndsWith(r, Closing(message))
  {
    Framed(persona, HISTORY_HEADER, History(history), Closing(message));
    persona + HISTORY_HEADER + History(history) + Closing(message)
  }

  /** The history lines of the prompt: those of the recent entries. */
  function History(history: seq<Turn>): string {
    RenderTurns(Recent(history), |Recent(history)|)
  }

  lemma Framed(a: string, b: string, c: string, d: string)
    ensures StartsWith(a + b + c + d, a) && EndsWith(a + b + c + d, d)
  {
    var s := a + b + c + d;
    assert s[..|a|] == a;
    assert s[|s| - |d|..] == d;
  }

  /** The reply `chat_with_character` returns: the model's text, or the
      apology when the call raised. */
  function ChatReply(outcome: Option<string>): (r: string)
    ensures outcome.None? ==> r == CHAT_APOLOGY
    ensures outcome.Some? ==> r == outcome.value
  {
    outcome.GetOr(CHAT_APOLOGY)
  }

  /** `chat_with_character`'s prompt building: a loop appending one line per
      recent entry to the header. */
  method BuildChatPrompt(persona: string, history: seq<Turn>, message: string) returns (prompt: string)
    ensures prompt == ChatPrompt(persona, history, message)
  {
    var recent := Recent(history);
    var head := persona + HISTORY_HEADER;
    prompt := head;
    var i := 0;
    while i < |recent|
      invariant 0 <= i <= |recent|
      invariant prompt == head + RenderTurns(recent, i)
    {
      RenderStep(head, recent, i);
      prompt := prompt + TurnLine(recent[i]);
      i := i + 1;
    }
    prompt := prompt + Closing(message);
  }

  /** One more entry adds its line after what the loop has built so far. */
  lemma RenderStep(head: string, turns: seq<Turn>, i: nat)
    requires i < |turns|
    ensures head + RenderTurns(turns, i + 1) == head + RenderTurns(turns, i) + TurnLine(turns[i])
  {
    ConcatAssoc(head, RenderTurns(turns, i), TurnLine(turns[i]));
  }

  /** The history lines of `turns`, one per entry in order: the first
      entry's line, then the lines of the others. */
  function Lines(turns: seq<Turn>): string {
    if turns == [] then "" else TurnLine(turns[0]) + Lines(turns[1..])
  }

  /** Adding an entry at the end adds its line at the end. */
  lemma {:induction false} LinesAppend(turns: seq<Turn>, t: Turn)
    ensures Lines(turns + [t]) == Lines(turns) + TurnLine(t)
    decreases |turns|
  {
    if turns == [] {
      assert turns + [t] == [t];
      assert Lines([t]) == TurnLine(t) + Lines([]);
    } else {
      assert (turns + [t])[1..] == turns[1..] + [t];
      LinesAppend(turns[1..], t);
      ConcatAssoc(TurnLine(turns[0]), Lines(turns[1..]), TurnLine(t));
    }
  }

  /** The loop's accumulation renders the first `n` entries as `Lines`
      does. */
  lemma {:induction false} RenderTurnsIsLines(turns: seq<Turn>, n: nat)
    requires n <= |turns|
    ensures RenderTurns(turns, n) == Lines(turns[..n])
  {
    if n > 0 {
      RenderTurnsIsLines(turns, n - 1);
      assert turns[..n] == turns[..n - 1] + [turns[n - 1]];
      LinesAppend(turns[..n - 1], turns[n - 1]);
    }
  }

  /** The prompt is the persona, the header, one line per entry of the
      window in its original order, and the closing line; the window is the
      whole history when it has at most six entries, and otherwise its last
      six. */
  lemma PromptWindow(persona: string, older: seq<Turn>, window: seq<Turn>, message: string)
    requires |window| == HISTORY_WINDOW || (older == [] && |window| <= HISTORY_WINDOW)
    ensures History(older + window) == Lines(window)
    ensures ChatPrompt(persona, older + window, message) ==
            persona + HISTORY_HEADER + Lines(window) + Closing(message)
  {
    HistoryOfWindow(older, window);
  }

  /** The history part of the prompt renders exactly the window. */
  lemma HistoryOfWindow(older: seq<Turn>, window: seq<Turn>)
    requires |window| == HISTORY_WINDOW || (older == [] && |window| <= HISTORY_WINDOW)
    ensures History(older + window) == Lines(window)
  {
    RecentIsWindow(older, window);
    RenderAllIsLines(window);
  }

  /** All of `turns`, rendered by the loop, are their `Lines`. */
  lemma RenderAllIsLines(turns: seq<Turn>)
    ensures RenderTurns(turns, |turns|) == Lines(turns)
  {
    RenderTurnsIsLines(turns, |turns|);
    assert turns[..|turns|] == turns;
  }

  /** The window `history[-6:]` keeps. */
  lemma RecentIsWindow(older: seq<Turn>, window: seq<Turn>)
    requires |window| == HISTORY_WINDOW || (older == [] && |window| <= HISTORY_WINDOW)
    ensures Recent(older + window) == window
  {
    var history := older + window;
    if older == [] {
      assert history == window;
    } else {
      assert history[|history| - HISTORY_WINDOW..] == window;
    }
  }

  lemma ConcatAssoc(a: string, b: string, c: string)
    ensures a + (b + c) == (a + b) + c
  {
  }

  /** Only the last six entries reach the prompt: anything older can be
      dropped without changing it. */
  lemma {:induction false} OlderHistoryIgnored(persona: string, older: seq<Turn>, history: seq<Turn>, message: string)
    requires |history| >= HISTORY_WINDOW
    ensures ChatPrompt(persona, older + history, message) == ChatPrompt(persona, history, message)
  {
    var all := older + history;
    assert all[|all| - HISTORY_WINDOW..] == history[|history| - HISTORY_WINDOW..];
    assert Recent(all) == Recent(history);
  }

  /** When the new message has already been appended to the transcript as a
      User entry, as the application does before calling the model, the
      prompt repeats it: its last history line is `User: <message>` and the
      closing line says the same again. */
  lemma {:induction false} AppendedMessageRepeated(persona: string, history: seq<Turn>, message: string)
    ensures EndsWith(ChatPrompt(persona, history + [Turn(User, message)], message),
                     TurnLine(Turn(User, message)) + Closing(message))
  {
    var h := history + [Turn(User, message)];
    var recent := Recent(h);
    assert recent[|recent| - 1] == Turn(User, message);
    var before := persona + HISTORY_HEADER + RenderTurns(recent, |recent| - 1);
    var tail := TurnLine(Turn(User, message)) + Closing(message);
    assert ChatPrompt(persona, h, message) == before + tail;
    assert (before + tail)[|before + tail| - |tail|..] == tail;
  }
}
