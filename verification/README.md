# AgentsX chat interface: a Dafny model of its decision rules

AgentsX is a single-page chat interface written in React. Beneath the markup sit a few
small sequential rules, and this project models them as pure functions over immutable
values:

- **the model picker** (`model-selector.tsx`). It holds whether the dropdown is open and
  which provider row is hovered. It works out the active provider and model from the
  committed model id. It picks the provider whose models are listed: the hovered one,
  or else the active one. It reports a clicked model to its parent.
- **the chat session** (`AgentsXApp.tsx`, with the keyboard rule and the send button of
  `chat-input.tsx`). A send is ignored when the text is blank after `trim()`. Otherwise
  it appends the user's message, clears the box and sets a one-second timer. When the
  timer fires, one canned acknowledgement is appended. The catalog is turned into a
  provider list whose ids are the lower-cased catalog keys.
- **the catalog** (`lib/ai/config.ts`): three providers with their model names and labels.
- **view decisions** (`chat-message.tsx`, `tool-indicator.tsx`): message alignment, when
  the tool list shows, when the legacy "Verified with Integration DB" badge shows, and
  what each kind of tool indicator displays.

Modules, one per source file plus helpers:

| file | module | models |
|---|---|---|
| wrappers.dfy | `Wrappers` | `undefined`/`null` as `Option` |
| lookup.dfy | `Lookup` | `Array.prototype.find` / `findIndex` |
| strings.dfy | `Strings` | `String.prototype.trim`, `includes`, `toLowerCase` |
| model_selector.dfy | `ModelSelector` | the picker |
| catalog.dfy | `Catalog` | the provider catalog |
| tool_indicator.dfy | `ToolIndicator` | tool records, their dispatch on `type`, and the indicator |
| chat_message.dfy | `ChatMessage` | the message record and its layout |
| chat_input.dfy | `ChatInput` | Enter handling and the send button |
| agents_app.dfy | `AgentsXApp` | the session state, its events and its invariants |

Time and timers are modelled as follows:

- `Date.now()` is the `clock` argument of each event that reads it.
- Each pending `setTimeout` callback is an entry of `App.pending`: the clock reading of
  the send that set it. The entries are kept oldest first, because all timers have the
  same delay and so fire in the order they were set.
- A timer firing is the event `TimerFired(clock)`.
- Nothing stops a second send while a reply is still pending, as in the code.

The main invariant is `Matched`. The k-th reply answers the k-th user message. The
pending entries are the ids of the user messages not yet answered. Along any run whose
clock never goes back, each reply's id is greater than the id of the message it answers
(`RepliesFollowTheirSends`).

## Behaviour worth noting

- Message ids are raw `Date.now()` readings, and a reply's id is the reading plus one.
  So a reply and the next send can share an id, and with it the React `key={msg.id}`
  of the rendered list. `IdsCanCollide` gives such a run under a non-decreasing clock.
- For the same reason ids can go down along the log: a reply fired at `c` gets `c + 1`,
  and a send read at the same `c` then gets `c` (`IdsCanDecrease`).
- Any number of replies can be pending at once: nothing disables sending while a reply
  is due.
- The committed model is not validated. An id that resolves nowhere shows as
  'Select Model', and so does a resolved model whose label is empty.
- A hover event can only come from a rendered row, so the hover is always a listed
  provider id (`StepKeepsHoverListed`).
- The send button's disabled state adds nothing: `handleSend` ignores a blank input
  itself (`StepByEvent`).
- The assistant's role is the string `'ai'`.

## Model

| member | source | states |
|---|---|---|
| Lookup.FindIndex | components/chat/model-selector.tsx:40-42 | the index found satisfies the predicate and no earlier element does; None exactly when no element does |
| Lookup.Find | components/chat/model-selector.tsx:52 | an element is found iff some element satisfies the predicate, and it is the first that does |
| Strings.Trim | components/AgentsXApp.tsx:52 | `trim()` gives the empty string exactly when every character is JavaScript whitespace; otherwise it starts and ends with a non-whitespace character |
| Strings.TrimIsInfix | agents/chat/chat-input.tsx:78 | the trimmed text is a slice of the input with only whitespace around it |
| Strings.ContainsIff | components/chat/chat-message.tsx:59 | the left-to-right `includes` scan is true iff the word occurs at some position |
| Strings.ToLowerProperties | components/AgentsXApp.tsx:32 | lower-casing keeps the length and every non-capital, turns each capital A to Z into its own small letter, leaves no capital, and is idempotent |
| ModelSelector.ActiveProvider | components/chat/model-selector.tsx:40-42 | the active provider is the first listed provider with a model named after the selection; none iff no provider has one |
| ModelSelector.ActiveModel | components/chat/model-selector.tsx:43 | an active model exists iff an active provider does; it is the first of the active provider's models carrying the selected name |
| ModelSelector.DisplayedProvider | components/chat/model-selector.tsx:51-52 | a truthy hover shows the first listed provider with that id (none if unlisted); otherwise the first listed provider with the active provider's id, and nothing when there is no active provider |
| ModelSelector.DisplayFallsBackToActive | components/chat/model-selector.tsx:51-52 | with distinct ids and no truthy hover, the displayed provider is exactly the active provider |
| ModelSelector.RowHighlighted | components/chat/model-selector.tsx:88-93 | a row is highlighted iff it is hovered or carries the active provider's id |
| ModelSelector.HighlightWithoutHover | components/chat/model-selector.tsx:90 | with no hover and distinct ids, exactly the active provider's row is highlighted |
| ModelSelector.AtMostOneSelected | components/chat/model-selector.tsx:121 | with unique model names, no two model buttons in the catalog are both marked selected |
| ModelSelector.TriggerLabel | components/chat/model-selector.tsx:63 | the label is the active model's label when that is non-empty, and 'Select Model' when no model resolves or its label is empty; any other label belongs to a catalog model carrying the selected name; it is never empty |
| ModelSelector.Step | components/chat/model-selector.tsx:45-122 | only a click on a displayed model reports an id: that model's name, and it closes the picker and clears the hover; a click past the displayed models changes nothing; toggle flips `isOpen` and keeps the hover; the backdrop closes and clears an open picker and does nothing to a closed one; hovering a row of the open picker sets the hover to that provider's id, and does nothing while closed |
| ModelSelector.StepKeepsHoverListed | components/chat/model-selector.tsx:94 | the hover is only ever set to the id of a listed provider |
| ModelSelector.HoverShowsRow | components/chat/model-selector.tsx:51-94 | with distinct ids, hovering a row with a non-empty id in the open picker lists that row's provider, whatever was selected or hovered before |
| ModelSelector.SelectionResolves | components/chat/model-selector.tsx:115-122 | a clicked model's name always resolves: afterwards the active model carries that name |
| Catalog.ConfigShape | lib/ai/config.ts:1-39 | three providers keyed OpenAI, Anthropic, Google in order, each with at least one model |
| Catalog.ConfigModels | lib/ai/config.ts:5-24 | OpenAI offers gpt-5 then gpt-5.1; Anthropic offers claude-sonnet-4-5 labelled "Claude Sonnet 4.5" |
| Catalog.ConfigModelNamesUnique | lib/ai/config.ts:7-31 | no model name occurs twice in the catalog |
| ToolIndicator.Classify | components/chat/tool-indicator.tsx:31-80 | each of the four known `type` names selects its own case and no other name does, copying the fields that case reads (query; code and status; prompt); every other name falls back to the generic tool, which keeps its name and status |
| ToolIndicator.ClassifyErase | components/chat/tool-indicator.tsx:14-21 | classifying the record a tool is written as gives back every well-tagged tool (a generic tool never carries one of the four known names) |
| ToolIndicator.ToolName | components/chat/tool-indicator.tsx:88 | the generic name is the tool's name when present and non-empty, and 'Tool' otherwise |
| ToolIndicator.Render | components/chat/tool-indicator.tsx:31-98 | a spinner shows only for a running code interpreter; spinner and check never show together; image generation always shows a check; "Done" shows only for a complete generic tool, together with its check |
| ToolIndicator.IconIdentifiesKind | components/chat/tool-indicator.tsx:31-98 | the icon identifies the kind of tool |
| ToolIndicator.SearchTextShowsQuery | components/chat/tool-indicator.tsx:39 | two searches show the same text only when their queries read the same |
| ToolIndicator.FileSearchTextShowsQuery | components/chat/tool-indicator.tsx:65 | two file searches show the same text only when their queries read the same |
| ToolIndicator.GenericNameFallback | components/chat/tool-indicator.tsx:88 | a generic tool with a missing or empty name reads "Running Tool..." |
| ToolIndicator.TextShowsArgument | components/chat/tool-indicator.tsx:39-88 | each caption reads: `Searching: "` query `"`; `Code: ` code; `Reading: ` query; `Generating: "` prompt `"`; `Running ` name or 'Tool' `...`, with undefined fields shown as nothing |
| ToolIndicator.GenericShowsName | components/chat/tool-indicator.tsx:88 | a generic tool with a non-empty name shows that name right after "Running " |
| ChatMessage.RenderTools | components/chat/chat-message.tsx:45-52 | one indicator per tool, in order |
| ChatMessage.Render | components/chat/chat-message.tsx:27-62 | user messages are right-aligned bubbles, others left-aligned; the tool list shows iff the role is not user and tools are present and non-empty; the badge shows iff the role is not user, tools are absent and "integration" occurs in the text |
| ChatMessage.BadgeExcludesTools | components/chat/chat-message.tsx:43-59 | badge and tool list never show together; an empty tool list shows neither |
| ChatInput.HandleKeyDown | agents/chat/chat-input.tsx:44-49 | a key sends, and has its newline suppressed, iff it is Enter without Shift |
| ChatInput.SendEnabled | agents/chat/chat-input.tsx:78-83 | the send button is enabled iff the text has a non-whitespace character |
| AgentsXApp.ToProviders | components/AgentsXApp.tsx:31-35 | one provider per catalog entry in catalog order: id the lower-cased key, name the key, models and icon copied |
| AgentsXApp.ProvidersRoundTrip | components/AgentsXApp.tsx:31-35 | each catalog entry is recovered from its provider, and each id is the provider's name lower-cased |
| AgentsXApp.HandleSend | components/AgentsXApp.tsx:51-56 | a blank input changes nothing; otherwise exactly one user message with the untrimmed text and the clock as id is appended, the input is cleared and one reply is scheduled |
| AgentsXApp.DeliverReply | components/AgentsXApp.tsx:56-66 | a firing timer appends exactly one 'ai' message with the canned text and id clock + 1, earlier messages unchanged, and retires the oldest pending entry |
| AgentsXApp.StepByEvent | components/AgentsXApp.tsx:141-147 | an edit stores the text; Enter without Shift runs `handleSend`, other keys nothing; the send button always amounts to `handleSend` and is a no-op when disabled; a timer delivers the oldest reply; a picker report becomes the committed model, and nothing else changes |
| AgentsXApp.EditForwardsText | agents/chat/chat-input.tsx:60 | an edit stores the text unchanged and touches nothing else |
| AgentsXApp.EnterMatchesSendButton | agents/chat/chat-input.tsx:44-83 | Enter without Shift has the effect of the send button; when the button is disabled the send is ignored anyway |
| AgentsXApp.OtherKeysDoNotSend | agents/chat/chat-input.tsx:45 | Shift+Enter and every other key leave the session unchanged |
| AgentsXApp.PickerOnlyCommitsOnClick | components/AgentsXApp.tsx:141-147 | picker events never touch the log, input or pending replies; only a model click changes the selection, to the clicked name |
| AgentsXApp.StepAppendOnly | components/AgentsXApp.tsx:54-58 | every event keeps the log as an unchanged prefix and adds at most one message |
| AgentsXApp.RunAppendOnly | components/AgentsXApp.tsx:54-58 | along any run the log only grows at its end, by at most one message per event |
| AgentsXApp.SendKeepsMatched | components/AgentsXApp.tsx:53-56 | a send adds its id to the user ids and to the end of the pending queue alike |
| AgentsXApp.SendKeepsFollow | components/AgentsXApp.tsx:53-56 | a user message keeps every reply's id above the send it answers |
| AgentsXApp.PendingGrows | components/AgentsXApp.tsx:56 | a timer queued at the current clock keeps every pending reading at or below it |
| AgentsXApp.SendKeepsValid | components/AgentsXApp.tsx:53-56 | a send at a time not earlier than the pending entries keeps sends and replies matched |
| AgentsXApp.ReplyKeepsValid | components/AgentsXApp.tsx:57-66 | a reply at such a time answers the oldest unanswered send with a greater id |
| AgentsXApp.ReplyKeepsMatched | components/AgentsXApp.tsx:57-66 | a reply answers the oldest pending send and drops it from the queue |
| AgentsXApp.ReplyKeepsFollow | components/AgentsXApp.tsx:57-66 | a reply whose id exceeds the oldest pending send keeps replies above their sends |
| AgentsXApp.PendingShrinks | components/AgentsXApp.tsx:57-66 | dropping the oldest timer keeps the remaining readings bounded by a later clock |
| AgentsXApp.StepKeepsValid | components/AgentsXApp.tsx:51-67 | under a clock that does not go back, every event keeps the matching invariant |
| AgentsXApp.RunKeepsValid | components/AgentsXApp.tsx:51-67 | the invariant holds after any run with a non-decreasing clock |
| AgentsXApp.RepliesFollowTheirSends | components/AgentsXApp.tsx:51-67 | from the start, replies pair with sends in order, and each reply's id exceeds the id of the message it answers |
| AgentsXApp.SendReplySend | components/AgentsXApp.tsx:51-67 | from a state with no reply due, a send, its reply and a second send append exactly those three messages, stamped from the clock |
| AgentsXApp.IdsCanCollide | components/AgentsXApp.tsx:53-60 | from an empty log, a reply and a later send can carry the same id under a non-decreasing clock, whatever the texts |
| AgentsXApp.IdsCanDecrease | components/AgentsXApp.tsx:53-60 | from an empty log, a send read at the same clock as the reply before it gets a smaller id than that reply |
| AgentsXApp.CatalogProviderIds | components/AgentsXApp.tsx:31-35 | the catalog yields provider ids openai, anthropic, google, all distinct |
| AgentsXApp.CatalogModelNames | lib/ai/config.ts:7-31 | the providers built from the catalog have unique model names |
| AgentsXApp.DefaultIsAnthropic | components/AgentsXApp.tsx:23-26 | the default id 'claude-sonnet-4-5' is found under the second provider, Anthropic, whose only model it is |
| AgentsXApp.StartsOn | components/chat/model-selector.tsx:39-52 | for any provider list with distinct ids, a default that is its provider's only model, with a non-empty label, shows that label and, with nothing hovered, that provider |
| AgentsXApp.InitialSelection | components/AgentsXApp.tsx:23-26 | empty log and input; the default 'claude-sonnet-4-5' resolves to Anthropic, labelled "Claude Sonnet 4.5", which is also the provider shown |
| AgentsXApp.HoverThenBackdropRestores | components/chat/model-selector.tsx:72-75 | from any state whose picker is closed with nothing hovered, opening it, hovering a row and clicking the backdrop gives that state back |
| AgentsXApp.HoverThenBackdrop | components/chat/model-selector.tsx:51-52 | after hovering OpenAI and closing, Anthropic is shown again |
| AgentsXApp.HelloScenario | components/AgentsXApp.tsx:51-67 | sending "hello" then firing gives the user message then the reply, the reply's id the larger |
| AgentsXApp.BlankScenario | components/AgentsXApp.tsx:52 | two spaces sent by the button or by Enter append nothing and schedule nothing |
| AgentsXApp.RepliesShowBadge | components/chat/chat-message.tsx:59 | every canned reply has no tools and contains "integration", so it shows the badge |

## Left out

- Real time. Timers are events and the 1000 ms delay is not represented. Pending replies
  fire in the order they were set, and none is ever cancelled.
- `Date.now()` is an event argument. Nothing constrains it, except in the lemmas that
  assume a clock that does not go back.
- API keys read from `process.env` in the catalog: environment input that no logic uses.
- Auto-scroll to the newest message and the textarea's auto-resize: DOM measurement.
- Styling: class strings, the `cn` helper, and the per-provider `bg`/`color` fields.
  For this reason `Provider` has no colour fields.
- Rendering of icons (`ProviderIcon`, including the icon beside the trigger label), the
  alternative icon picker `components/ModelSelector.tsx`, and the presentational
  wrappers (button, scroll area, textarea, model button, sidebar). The history the
  sidebar receives is always empty.
- The welcome panel shown while the log is empty, and the message text itself. Only the
  layout decisions of a message are modelled.
- React's re-rendering. The provider list is recomputed on every render, so it is a
  parameter of every step.
- Strings.ToLowerProperties: lower-cases only the ASCII letters A to Z. JavaScript's
  `toLowerCase` maps all of Unicode, but every catalog key is ASCII.
- Strings.Trim: follows the ECMAScript whitespace set with the Unicode space separators
  fixed as of Unicode 15. The set follows the Unicode version of the running engine.
