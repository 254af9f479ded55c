# Emotion-to-character role-play chatbot: the session core

`app.py` is a Streamlit page. It photographs the user and asks Gemini for
their emotion and gender. It then creates a chat character of the opposite
gender and emotion, and lets the user chat with it. This project models the
deterministic core of that page:

- `py_str.dfy` (`PyStr`): the Python `str` operations the page relies on,
  with CPython's meaning. These are `isspace`, `strip`, `rstrip`,
  `splitlines` with all of its line boundaries, `startswith`, `endswith`,
  one-character `replace`, `lower` and the prefix slice `s[:k]` for any
  integer `k`.
- `blurb.dfy` (`Blurb`): `build_brief`. It is the loop over the profile's
  lines, proved against a specification function (`Brief`), with the
  blurb's properties proved as lemmas.
- `opposites.dfy` (`Opposites`): the two opposite tables, the lookups with
  their fallbacks, and the choice of the character's target gender and
  emotion.
- `gemini.dfy` (`Gemini`): the deterministic parts of the three model
  wrappers. These are the fence stripping and result of `analyze_image`,
  the result of `create_character`, and the prompt loop of
  `chat_with_character`. The model calls are parameters: a reply string,
  or `None` for a call that raised.
- `session.dfy` (`Session`): the session keys as a value (`Store`), and one
  function per rerun branch that changes them. The session invariant is
  proved to hold after any sequence of interactions. `SessionState` is the
  mutable session; each of its methods is proved to perform its branch.

The session invariant says three things. A transcript exists exactly when
a persona does. The persona comes with a profile, a name and the profile's
blurb. The transcript is a System entry followed by complete exchanges, each
a non-empty User entry and then a Character entry.

`create_character` makes one model call (app.py:137); the persona prompt is
a template filled with the profile (app.py:141-151).

## Model

| member | source | states |
|---|---|---|
| PyStr.Strip | app.py:45 | `strip()` is empty exactly when the text is all whitespace; the result has no surrounding whitespace and keeps "no line boundary" |
| PyStr.StripPadded | app.py:92 | stripping a trimmed text padded with whitespace on both sides gives the text back |
| PyStr.RStrip | app.py:53 | `rstrip()` is the longest prefix not ending in whitespace; everything after it is whitespace |
| PyStr.SplitLines | app.py:44 | no line of `splitlines()` contains a line boundary; a non-empty text has at least one line |
| PyStr.BlankTextHasBlankLines | app.py:44-50 | every line of an all-whitespace text is all whitespace |
| PyStr.BlankLinesMeanBlankText | app.py:44-50 | if every line strips to "", the whole text is whitespace, because the boundaries are whitespace too |
| PyStr.PyPrefix | app.py:53 | `s[:k]` is a prefix of `s` of length `min(k, len s)` for `k >= 0` and `max(len s + k, 0)` for negative `k` |
| PyStr.ReplaceChar | app.py:51 | `replace(a, b)` keeps the length and replaces exactly the occurrences of `a` |
| PyStr.Lower | app.py:99 | lowering keeps the length and maps each character on its own: an upper-case ASCII letter becomes the letter 32 code points up, anything else is kept; so no upper-case ASCII letter is left and a text without one is unchanged |
| Blurb.FirstNonBlank | app.py:44-48 | the index found is the first line from the start that does not strip to "" |
| Blurb.FirstLine | app.py:44-48 | the first non-blank line, stripped: non-empty, trimmed, one line; there is none exactly when the profile is all whitespace |
| Blurb.Chosen | app.py:44-50 | the line the loop settles on has no line boundary and is "" exactly when the profile is all whitespace |
| Blurb.BuildBrief | app.py:37-54 | the loop with `break` and the `for`-`else` fallback returns `Brief(profile, maxLen)` |
| Blurb.BriefEmptyIff | app.py:41-50 | with `maxLen >= 0` the blurb is "" exactly when the profile is empty or all whitespace |
| Blurb.BriefFits | app.py:44-52 | a first non-blank line that fits the limit is the blurb, unchanged |
| Blurb.BriefCut | app.py:52-53 | a longer first line becomes its first `maxLen - 1` characters, right-stripped, then the ellipsis |
| Blurb.BriefWithinLimit | app.py:52-53 | with `maxLen >= 1` the blurb is never longer than `maxLen` |
| Blurb.WrittenBriefOverflows | app.py:53 | with the suffix as the file spells it, a cut blurb whose kept text does not end in whitespace has `maxLen + 2` characters |
| Blurb.BriefIsOneLine | app.py:44-53 | whatever the limit, the blurb has no line boundary |
| Opposites.EmotionKeysAreLower | app.py:18-27 | every emotion of the table is already lower case, so lowering a key gives it back |
| Opposites.OppositeEmotion | app.py:228 | the lookup gives the table's opposite of the lowered emotion, and "neutral" for anything else |
| Opposites.TableOpposites | app.py:18-27 | only happy and sad have an opposite that is itself in the table, and they are each other's opposite |
| Opposites.OppositeEmotionOfKnown | app.py:18-27 | for a table emotion, two lookups give it back exactly for happy, sad and neutral (via the "neutral" fallback) |
| Opposites.OppositeGender | app.py:229 | the lookup always gives a table gender; a known gender maps to itself only for "Other"; anything else gives "Other" |
| Opposites.OppositeGenderInvolution | app.py:28-32 | two lookups give back any table gender and give a table gender for any input |
| Opposites.CharacterTargets | app.py:202-229 | targets are the opposites of the detected values, or of the manual picks when the analysis said "unknown"; the gender is always a table gender |
| Gemini.StripFence | app.py:94-95 | a fenced reply loses its 7-character opening and 3-character closing fence and is stripped; any other reply is unchanged |
| Gemini.CleanReply | app.py:92-95 | the text handed to the parser never has surrounding whitespace; an unfenced reply is only stripped |
| Gemini.UnfenceFenced | app.py:94-95 | removing the fence from a fenced body gives the stripped body |
| Gemini.CleanFencedReply | app.py:92-95 | a fenced body with whitespace around the fence comes back as the stripped body |
| Gemini.Analyze | app.py:98-105 | a failure reports "unknown" for both; a missing key reports "unknown" for that field; a present emotion is reported lowered and a present gender as given; the emotion is always lower case |
| Gemini.FailedAnalysisUsesPicks | app.py:201-229 | after a failed analysis the targets are the table opposites of the two manual picks |
| Gemini.CreateCharacter | app.py:134-156 | no character when the call raised; otherwise the stripped reply is the profile and the persona is the intro, the profile and the rules, in that order |
| Gemini.Recent | app.py:167 | `history[-6:]` is the last `min(6, n)` entries in their order |
| Gemini.ChatPrompt | app.py:162-169 | the prompt starts with the persona and ends with `User: <message>\nCharacter:` |
| Gemini.BuildChatPrompt | app.py:162-169 | the `+=` loop builds `ChatPrompt(persona, history, message)` |
| Gemini.RenderTurnsIsLines | app.py:167-168 | the loop's accumulation equals the lines of the entries rendered one by one in order |
| Gemini.PromptWindow | app.py:162-169 | the prompt is the persona, the header, one `role: text` line per entry of the last `min(6, n)` entries in order, and the closing line |
| Gemini.OlderHistoryIgnored | app.py:167 | with six or more entries, anything older does not change the prompt |
| Gemini.ChatReply | app.py:171-177 | the reply is the model's text, or the apology "Sorry, I couldn't produce a response right now." when the call raised |
| Gemini.AppendedMessageRepeated | app.py:262-267 | since the User entry is appended before the call, the prompt ends with `User: <m>` as a history line and again as the closing line |
| Session.Queued | app.py:60-64 | a blank input changes nothing; otherwise the stripped input is pending and the clear flag is raised; nothing else changes; the invariant is kept |
| Session.StagedOnChange | app.py:283-285 | `setdefault` never overwrites a pending message; otherwise it stages the stripped input, even ""; nothing else changes |
| Session.StagedSend | app.py:288-290 | a non-empty input overwrites the pending message unstripped; an empty one changes nothing |
| Session.Created | app.py:239-244 | a failed creation changes nothing; a created character sets persona, profile, blurb, name and the one-entry System transcript together and establishes the invariant |
| Session.Processed | app.py:260-270 | the pending message is popped; a non-empty one appends exactly a User and a Character entry after the earlier ones and empties the input; otherwise nothing else changes |
| Session.SentPrompt | app.py:260-267 | a prompt is sent exactly when the pending message is non-empty; it starts with the persona and ends with the message twice |
| Session.Cleared | app.py:295-297 | ending the session leaves no key set, which satisfies the invariant |
| Session.AppendExchangeKeepsShape | app.py:262-268 | appending a non-empty User entry and a Character entry keeps the transcript well formed |
| Session.Step | app.py:236-297 | every interaction keeps the session invariant |
| Session.Run | app.py:236-297 | from any session satisfying the invariant, the empty one included, every reachable session satisfies it |
| Session.TranscriptOnlyGrows | app.py:260-270 | until a character is created again or the session ends, the transcript only grows at its end |
| Session.BlankMessageSentBySend | app.py:283-290 | a whitespace-only input, which `queue_user_message` would drop, is put into the transcript by `on_change` and then Send |
| Session.SessionState.QueueUserMessage | app.py:60-64 | the new keys are `Queued` of the old ones, and the invariant is kept |
| Session.SessionState.OnInputChange | app.py:283-285 | the new keys are `StagedOnChange` of the old ones |
| Session.SessionState.OnSend | app.py:288-290 | the new keys are `StagedSend` of the old ones |
| Session.SessionState.OnCreate | app.py:239-244 | the new keys are `Created` of the old ones; the blurb comes from `BuildBrief` |
| Session.SessionState.ProcessPending | app.py:260-270 | the new keys are `Processed` of the old ones, and the prompt returned is `SentPrompt` of the old keys |
| Session.SessionState.EndSession | app.py:295-297 | every key is removed |

## Findings

| source | as written | input that shows it | evidently intended | confidence | as-written member | corrected member |
|---|---|---|---|---|---|---|
| app.py:53 | the suffix literal is three characters, U+201A U+00C4 U+00B6: the UTF-8 bytes of "…" read as Mac Roman | a profile whose first line is 161 × "a", with `max_len = 160`: the blurb is 159 × "a" plus three characters, 162 in all | a single U+2026, so a cut blurb is at most `max_len` long | not executed; medium, since the characters may come from re-encoding the file rather than from the code as run | Blurb.WrittenBriefOverflows | Blurb.BriefWithinLimit |

The rest of the model uses the corrected suffix: `Brief`, `BuildBrief` and
the session's stored blurb.

## Left out

- Streamlit rendering is not modelled: titles, containers, the transcript display loop (app.py:273-278), spinners, messages and `st.rerun`. Each rerun branch that changes the session is a separate step, and `Session.Step` combines them.
- Camera capture and the PIL/JPEG conversion (app.py:194-198, app.py:75-77) are image I/O.
- The Gemini calls are not modelled. Their replies are parameters: a string, or `None` for a call that raised.
- `json.loads` and `str()` of the parsed fields (app.py:98-100) are not modelled. `Gemini.ParsedReply` carries the two fields already converted to strings.
- `configure_genai`, `.env` loading and the `genai_configured` key (app.py:110-117, app.py:189-191) are configuration I/O.
- The widget keys `emotion_selectbox`, `gender_selectbox`, `char_name_input` and `send_button` are not session keys of the model. The manual picks and the character name are parameters.
- The profile request's wording (app.py:124-132) is not modelled.
- Gemini.CreateCharacter: the seven role-play rules after the profile (app.py:143-150) are the placeholder constant `PERSONA_RULES`, not their wording.
- PyStr.Lower: only ASCII letters are lowered. Python's `lower()` also lowers other letters, and two of them give ASCII text: U+0130 becomes "i" followed by U+0307, and the Kelvin sign U+212A becomes "k". The table lookups are not affected, since no table emotion contains "k" and "i" plus U+0307 is not ASCII. The comparison with "unknown" (app.py:206) can differ: an emotion reply "UN\u212ANOWN" lowers to "unknown" in Python, so the manual pick is used, but not in the model, which then looks it up and gets "neutral". This is not proved.
- Gemini.Analyze: inherits the `PyStr.Lower` gap above for non-ASCII emotion replies.
- Session.Queued: `queue_user_message` (app.py:60-64) is defined but never called in `app.py`. The text input's `on_change` is the `setdefault` lambda (app.py:283-285). So the `QueueMessage` event never happens on the page as written, and a whitespace-only message is never dropped there; `Session.BlankMessageSentBySend` contrasts the page with that unused helper.
- Opposites.ResolveGender: the `None` case of app.py:216 is not modelled. `analyze_image` always returns a string gender, so that case cannot occur.
- Session.SessionState.EndSession: the deletion loop over the keys (app.py:296-297) is modelled as resetting every field to "not set". The order of deletion does not matter and is not modelled.
- Session.WellFormedTranscript: checks the role of the opening System entry, not its text. `Session.Created` states the text.
- `should_clear_input` is set by `queue_user_message` but never read in `app.py`. It is kept as a field with no effect.
