/** The application shell: the message log, the input text, the committed model
    and the replies still waiting on their timers. Time is the argument of the
    events that read the clock; a timer firing is an event of its own. */
module AgentsXApp {
  import opened Wrappers
  import Strings
  import Catalog
  import ModelSelector
  import ChatInput
  import opened ChatMessage

  const DefaultModelId := "claude-sonnet-4-5"
  /** The canned acknowledgement, one sentence; written in three pieces so that the
      position of the legacy marker word inside it is evident. */
  const ReplyLead := "I've processed that request. The "
  const ReplyText := ReplyLead + LegacyMarker + " parameters have been updated across the active agent cluster."

  /** `pending` holds the clock reading of every send whose reply timer has not
      fired yet, oldest first: all timers have the same delay, so they fire in
      the order they were set. */
  datatype App = App(
    messages: seq<Message>,
    input: string,
    selectedModelId: string,
    pending: seq<int>,
    picker: ModelSelector.Picker)

  datatype Event =
    | Edit(text: string)                           // the text box reports new contents
    | KeyDown(key: ChatInput.KeyEvent, clock: int)  // a key press in the text box
    | ClickSend(clock: int)                        // the send button
    | TimerFired(clock: int)                       // the oldest reply timer runs
    | PickerInput(ev: ModelSelector.PickerEvent)    // anything done to the model picker

  const Init := App([], "", DefaultModelId, [], ModelSelector.ClosedPicker)

  /** One catalog entry as a provider: the key lower-cased is the id, the key itself the name. */
  function ToProvider(e: Catalog.Entry): ModelSelector.Provider {
    ModelSelector.Provider(Strings.ToLower(e.key), e.key, e.models, e.icon)
  }

  /** The catalog as the provider list, in catalog order. */
  function ToProviders(c: seq<Catalog.Entry>): (ps: seq<ModelSelector.Provider>)
    ensures |ps| == |c|
    ensures forall i :: 0 <= i < |c| ==>
              && ps[i].id == Strings.ToLower(c[i].key) && ps[i].name == c[i].key
              && ps[i].models == c[i].models && ps[i].icon == c[i].icon
  {
    if |c| == 0 then [] else [ToProvider(c[0])] + ToProviders(c[1..])
  }

  function ToEntry(p: ModelSelector.Provider): Catalog.Entry {
    Catalog.Entry(p.name, p.models, p.icon)
  }

  /** The provider list loses nothing of the catalog: each entry is read back from its provider,
      and each provider's id is its name lower-cased. */
  lemma ProvidersRoundTrip(c: seq<Catalog.Entry>)
    ensures forall i :: 0 <= i < |c| ==> ToEntry(ToProviders(c)[i]) == c[i]
    ensures forall i :: 0 <= i < |c| ==> ToProviders(c)[i].id == Strings.ToLower(ToProviders(c)[i].name)
  {
  }

  /** `handleSend`: ignored when the input is blank; otherwise appends the user's
      message (untrimmed, stamped with the clock), clears the input and sets a reply timer. */
  function HandleSend(app: App, clock: int): (r: App)
    ensures Strings.AllWhitespace(app.input) ==> r == app
    ensures !Strings.AllWhitespace(app.input) ==>
              && r.messages == app.messages + [Message(clock, User, app.input, None)]
              && r.input == ""
              && r.pending == app.pending + [clock]
              && r.selectedModelId == app.selectedModelId && r.picker == app.picker
  {
    if Strings.Trim(app.input) == "" then app
    else app.(messages := app.messages + [Message(clock, User, app.input, None)], input := "", pending := app.pending + [clock])
  }

  /** The oldest reply timer runs: appends the canned reply, stamped one past the clock. */
  function DeliverReply(app: App, clock: int): (r: App)
    ensures |app.pending| == 0 ==> r == app
    ensures |app.pending| > 0 ==>
              && r.messages == app.messages + [Message(clock + 1, Ai, ReplyText, None)]
              && r.pending == app.pending[1..]
              && r.input == app.input && r.selectedModelId == app.selectedModelId && r.picker == app.picker
  {
    if |app.pending| == 0 then app
    else app.(messages := app.messages + [Message(clock + 1, Ai, ReplyText, None)], pending := app.pending[1..])
  }

  /** One event. The text box forwards edits unchanged; a disabled send button cannot be clicked;
      the picker reports a chosen model id, which becomes the committed selection. */
  function Step(ps: seq<ModelSelector.Provider>, app: App, ev: Event): App {
    match ev
    case Edit(text) => app.(input := text)
    case KeyDown(key, clock) => if ChatInput.HandleKeyDown(key).send then HandleSend(app, clock) else app
    case ClickSend(clock) => if ChatInput.SendEnabled(app.input) then HandleSend(app, clock) else app
    case TimerFired(clock) => DeliverReply(app, clock)
    case PickerInput(pe) =>
      var o := ModelSelector.Step(ps, app.selectedModelId, app.picker, pe);
      app.(picker := o.picker, selectedModelId := o.report.GetOr(app.selectedModelId))
  }

  function Run(ps: seq<ModelSelector.Provider>, app: App, evs: seq<Event>): App
    decreases |evs|
  {
    if |evs| == 0 then app else Run(ps, Step(ps, app, evs[0]), evs[1..])
  }

  /** What each event does: an edit stores the text; Enter without Shift and the send
      button both run `handleSend` (whose own blank check makes the disabled button
      redundant), other keys do nothing; a firing timer delivers the oldest reply; the
      picker's report, if any, becomes the committed model and the rest is untouched. */
  lemma StepByEvent(ps: seq<ModelSelector.Provider>, app: App, ev: Event)
    ensures ev.Edit? ==> Step(ps, app, ev) == app.(input := ev.text)
    ensures ev.KeyDown? ==>
              Step(ps, app, ev) == (if ev.key.key == "Enter" && !ev.key.shiftKey then HandleSend(app, ev.clock) else app)
    ensures ev.ClickSend? ==> Step(ps, app, ev) == HandleSend(app, ev.clock)
    ensures ev.ClickSend? && !ChatInput.SendEnabled(app.input) ==> Step(ps, app, ev) == app
    ensures ev.TimerFired? ==> Step(ps, app, ev) == DeliverReply(app, ev.clock)
    ensures ev.PickerInput? ==>
              var o := ModelSelector.Step(ps, app.selectedModelId, app.picker, ev.ev);
              && Step(ps, app, ev).picker == o.picker
              && Step(ps, app, ev).selectedModelId == (if o.report.Some? then o.report.value else app.selectedModelId)
              && Step(ps, app, ev).messages == app.messages
              && Step(ps, app, ev).input == app.input
              && Step(ps, app, ev).pending == app.pending
  {
  }

  /** Only text-box edits change the input, and they change nothing else. */
  lemma EditForwardsText(ps: seq<ModelSelector.Provider>, app: App, text: string)
    ensures Step(ps, app, Edit(text)) == app.(input := text)
  {
  }

  /** Enter without Shift does what the send button does, and the button being disabled
      coincides with the send being ignored. */
  lemma EnterMatchesSendButton(ps: seq<ModelSelector.Provider>, app: App, clock: int)
    ensures Step(ps, app, KeyDown(ChatInput.KeyEvent("Enter", false), clock)) == Step(ps, app, ClickSend(clock))
    ensures !ChatInput.SendEnabled(app.input) ==> HandleSend(app, clock) == app
  {
  }

  /** Shift+Enter and every other key leave the session as it is. */
  lemma OtherKeysDoNotSend(ps: seq<ModelSelector.Provider>, app: App, key: ChatInput.KeyEvent, clock: int)
    requires key.key != "Enter" || key.shiftKey
    ensures Step(ps, app, KeyDown(key, clock)) == app
  {
  }

  /** The picker never touches the log, the input or the pending replies; only a model
      click changes the committed selection, and it commits the clicked model's name. */
  lemma PickerOnlyCommitsOnClick(ps: seq<ModelSelector.Provider>, app: App, pe: ModelSelector.PickerEvent)
    ensures var r := Step(ps, app, PickerInput(pe));
            && r.messages == app.messages && r.input == app.input && r.pending == app.pending
            && (!pe.ClickModel? ==> r.selectedModelId == app.selectedModelId)
            && (pe.ClickModel? && pe.index < |ModelSelector.ClickableModels(ps, app.selectedModelId, app.picker)| ==>
                  r.selectedModelId == ModelSelector.ClickableModels(ps, app.selectedModelId, app.picker)[pe.index].name
                  && r.picker == ModelSelector.ClosedPicker)
  {
  }

  /** Every event keeps the earlier messages as an unchanged prefix and adds at most one. */
  lemma StepAppendOnly(ps: seq<ModelSelector.Provider>, app: App, ev: Event)
    ensures var r := Step(ps, app, ev);
            && |app.messages| <= |r.messages| <= |app.messages| + 1
            && r.messages[..|app.messages|] == app.messages
  {
  }

  /** Along any run the log only grows at its end. */
  lemma {:induction false} RunAppendOnly(ps: seq<ModelSelector.Provider>, app: App, evs: seq<Event>)
    ensures var r := Run(ps, app, evs);
            && |app.messages| <= |r.messages| <= |app.messages| + |evs|
            && r.messages[..|app.messages|] == app.messages
    decreases |evs|
  {
    if |evs| > 0 {
      var next := Step(ps, app, evs[0]);
      StepAppendOnly(ps, app, evs[0]);
      RunAppendOnly(ps, next, evs[1..]);
      var r := Run(ps, app, evs);
      assert r.messages[..|app.messages|] == r.messages[..|next.messages|][..|app.messages|];
    }
  }

  /** Ids of the user messages, in log order. */
  function UserIds(ms: seq<Message>): seq<int> {
    if |ms| == 0 then [] else UserIds(ms[..|ms| - 1]) + (if ms[|ms| - 1].role == User then [ms[|ms| - 1].id] else [])
  }

  /** Ids of the assistant replies, in log order. */
  function ReplyIds(ms: seq<Message>): seq<int> {
    if |ms| == 0 then [] else ReplyIds(ms[..|ms| - 1]) + (if ms[|ms| - 1].role == Ai then [ms[|ms| - 1].id] else [])
  }

  lemma IdsAppend(ms: seq<Message>, m: Message)
    ensures UserIds(ms + [m]) == UserIds(ms) + (if m.role == User then [m.id] else [])
    ensures ReplyIds(ms + [m]) == ReplyIds(ms) + (if m.role == Ai then [m.id] else [])
  {
    assert (ms + [m])[..|ms|] == ms;
  }

  /** Every send is answered once, in order: the k-th reply answers the k-th user message,
      and the pending timers belong to the unanswered user messages, oldest first. */
  ghost predicate Matched(app: App) {
    && |ReplyIds(app.messages)| <= |UserIds(app.messages)|
    && app.pending == UserIds(app.messages)[|ReplyIds(app.messages)|..]
  }

  /** Each reply's id is above the id of the user message it answers. */
  ghost predicate RepliesFollowSends(ms: seq<Message>) {
    && |ReplyIds(ms)| <= |UserIds(ms)|
    && forall k :: 0 <= k < |ReplyIds(ms)| ==> ReplyIds(ms)[k] > UserIds(ms)[k]
  }

  ghost predicate NoneLaterThan(pending: seq<int>, t: int) {
    forall k :: 0 <= k < |pending| ==> pending[k] <= t
  }

  /** The state invariant at time `t`. */
  ghost predicate Valid(app: App, t: int) {
    Matched(app) && RepliesFollowSends(app.messages) && NoneLaterThan(app.pending, t)
  }

  /** The event does not read a clock earlier than `t`. */
  predicate NotBefore(ev: Event, t: int) {
    match ev
    case KeyDown(_, c) => c >= t
    case ClickSend(c) => c >= t
    case TimerFired(c) => c >= t
    case _ => true
  }

  /** The time after the event. */
  function After(ev: Event, t: int): int {
    match ev
    case KeyDown(_, c) => c
    case ClickSend(c) => c
    case TimerFired(c) => c
    case _ => t
  }

  /** The clock never goes back along the events. */
  ghost predicate Monotone(evs: seq<Event>, t: int)
    decreases |evs|
  {
    |evs| == 0 || (NotBefore(evs[0], t) && Monotone(evs[1..], After(evs[0], t)))
  }

  /** A send appends a user id to the log and the same id to the pending queue. */
  lemma SendKeepsMatched(ms: seq<Message>, pending: seq<int>, u: Message)
    requires u.role == User
    requires |ReplyIds(ms)| <= |UserIds(ms)| && pending == UserIds(ms)[|ReplyIds(ms)|..]
    ensures |ReplyIds(ms + [u])| <= |UserIds(ms + [u])|
    ensures pending + [u.id] == UserIds(ms + [u])[|ReplyIds(ms + [u])|..]
  {
    IdsAppend(ms, u);
    var us := UserIds(ms);
    assert (us + [u.id])[|ReplyIds(ms)|..] == us[|ReplyIds(ms)|..] + [u.id];
  }

  /** A user message leaves the replies, and the sends they answer, where they were. */
  lemma SendKeepsFollow(ms: seq<Message>, u: Message)
    requires u.role == User && RepliesFollowSends(ms)
    ensures RepliesFollowSends(ms + [u])
  {
    IdsAppend(ms, u);
    var us := UserIds(ms);
    forall k | 0 <= k < |ReplyIds(ms)|
      ensures (us + [u.id])[k] == us[k]
    {
    }
  }

  /** Queueing a timer read at the current clock keeps every queued reading at or below it. */
  lemma PendingGrows(pending: seq<int>, t: int, c: int)
    requires NoneLaterThan(pending, t) && c >= t
    ensures NoneLaterThan(pending + [c], c)
  {
    forall k | 0 <= k < |pending| + 1
      ensures (pending + [c])[k] <= c
    {
      if k < |pending| {
        assert (pending + [c])[k] == pending[k];
      }
    }
  }

  lemma SendKeepsValid(app: App, clock: int, t: int)
    requires Valid(app, t) && clock >= t
    ensures Valid(HandleSend(app, clock), clock)
  {
    if !Strings.AllWhitespace(app.input) {
      var u := Message(clock, User, app.input, None);
      SendKeepsMatched(app.messages, app.pending, u);
      SendKeepsFollow(app.messages, u);
      PendingGrows(app.pending, t, clock);
    }
  }

  /** A reply appends an assistant id to the log and takes the oldest timer off the queue. */
  lemma ReplyKeepsMatched(ms: seq<Message>, pending: seq<int>, a: Message)
    requires a.role == Ai && |pending| > 0
    requires |ReplyIds(ms)| <= |UserIds(ms)| && pending == UserIds(ms)[|ReplyIds(ms)|..]
    ensures |ReplyIds(ms + [a])| <= |UserIds(ms + [a])|
    ensures pending[1..] == UserIds(ms + [a])[|ReplyIds(ms + [a])|..]
  {
    IdsAppend(ms, a);
    assert UserIds(ms)[|ReplyIds(ms)| + 1..] == pending[1..];
  }

  /** The new reply's id is above the oldest pending send, which is the send it answers. */
  lemma ReplyKeepsFollow(ms: seq<Message>, pending: seq<int>, a: Message)
    requires a.role == Ai && |pending| > 0 && pending[0] < a.id
    requires |ReplyIds(ms)| <= |UserIds(ms)| && pending == UserIds(ms)[|ReplyIds(ms)|..]
    requires RepliesFollowSends(ms)
    ensures RepliesFollowSends(ms + [a])
  {
    IdsAppend(ms, a);
    var rs := ReplyIds(ms);
    var us := UserIds(ms);
    assert us[|rs|] == pending[0];
    forall k | 0 <= k < |rs| + 1
      ensures (rs + [a.id])[k] > us[k]
    {
      if k < |rs| {
        assert (rs + [a.id])[k] == rs[k];
      }
    }
  }

  /** Taking the oldest timer off the queue keeps the bound, under a later clock too. */
  lemma PendingShrinks(pending: seq<int>, t: int, c: int)
    requires NoneLaterThan(pending, t) && c >= t && |pending| > 0
    ensures NoneLaterThan(pending[1..], c)
  {
    forall k | 0 <= k < |pending| - 1
      ensures pending[1..][k] <= c
    {
      assert pending[1..][k] == pending[k + 1];
    }
  }

  lemma ReplyKeepsValid(app: App, clock: int, t: int)
    requires Valid(app, t) && clock >= t
    ensures Valid(DeliverReply(app, clock), clock)
  {
    if |app.pending| > 0 {
      var a := Message(clock + 1, Ai, ReplyText, None);
      assert app.pending[0] <= t;
      ReplyKeepsMatched(app.messages, app.pending, a);
      ReplyKeepsFollow(app.messages, app.pending, a);
      PendingShrinks(app.pending, t, clock);
    }
  }

  /** Under a clock that does not go back, every event keeps the invariant. */
  lemma StepKeepsValid(ps: seq<ModelSelector.Provider>, app: App, ev: Event, t: int)
    requires Valid(app, t) && NotBefore(ev, t)
    ensures Valid(Step(ps, app, ev), After(ev, t))
  {
    match ev
    case Edit(_) =>
    case KeyDown(key, c) => SendKeepsValid(app, c, t);
    case ClickSend(c) => SendKeepsValid(app, c, t);
    case TimerFired(c) => ReplyKeepsValid(app, c, t);
    case PickerInput(_) =>
  }

  lemma {:induction false} RunKeepsValid(ps: seq<ModelSelector.Provider>, app: App, evs: seq<Event>, t: int)
    requires Valid(app, t) && Monotone(evs, t)
    ensures Matched(Run(ps, app, evs)) && RepliesFollowSends(Run(ps, app, evs).messages)
    decreases |evs|
  {
    if |evs| > 0 {
      StepKeepsValid(ps, app, evs[0], t);
      RunKeepsValid(ps, Step(ps, app, evs[0]), evs[1..], After(evs[0], t));
    }
  }

  /** From the start, along any run whose clock never goes back, replies pair up with
      sends in order and each reply's id exceeds the id of the message it answers. */
  lemma RepliesFollowTheirSends(ps: seq<ModelSelector.Provider>, evs: seq<Event>, t: int)
    requires Monotone(evs, t)
    ensures Matched(Run(ps, Init, evs))
    ensures RepliesFollowSends(Run(ps, Init, evs).messages)
  {
    RunKeepsValid(ps, Init, evs, t);
  }

  /** Running two event lists one after the other is running their concatenation. */
  lemma {:induction false} RunConcat(ps: seq<ModelSelector.Provider>, app: App, xs: seq<Event>, ys: seq<Event>)
    ensures Run(ps, app, xs + ys) == Run(ps, Run(ps, app, xs), ys)
    decreases |xs|
  {
    if |xs| > 0 {
      assert (xs + ys)[1..] == xs[1..] + ys;
      RunConcat(ps, Step(ps, app, xs[0]), xs[1..], ys);
    } else {
      assert xs + ys == ys;
    }
  }

  lemma RunOne(ps: seq<ModelSelector.Provider>, app: App, ev: Event)
    ensures Run(ps, app, [ev]) == Step(ps, app, ev)
  {
    assert [ev][1..] == [];
  }

  /** Typing a text and sending it at `clock`, when the text is not blank. */
  lemma TypeAndSend(ps: seq<ModelSelector.Provider>, app: App, text: string, clock: int)
    requires !Strings.AllWhitespace(text)
    ensures Run(ps, app, [Edit(text), ClickSend(clock)]) ==
            app.(messages := app.messages + [Message(clock, User, text, None)], input := "", pending := app.pending + [clock])
  {
    RunConcat(ps, app, [Edit(text)], [ClickSend(clock)]);
    assert [Edit(text), ClickSend(clock)] == [Edit(text)] + [ClickSend(clock)];
    RunOne(ps, app, Edit(text));
    RunOne(ps, app.(input := text), ClickSend(clock));
  }

  /** A send, its reply and a second send, from a state with no reply due. */
  lemma SendReplySend(ps: seq<ModelSelector.Provider>, app: App, x: string, y: string, c1: int, c2: int, c3: int)
    requires app.pending == [] && !Strings.AllWhitespace(x) && !Strings.AllWhitespace(y)
    ensures Run(ps, app, [Edit(x), ClickSend(c1)] + [TimerFired(c2)] + [Edit(y), ClickSend(c3)]).messages
            == app.messages + [Message(c1, User, x, None)] + [Message(c2 + 1, Ai, ReplyText, None)] + [Message(c3, User, y, None)]
  {
    var xs, ys, zs := [Edit(x), ClickSend(c1)], [TimerFired(c2)], [Edit(y), ClickSend(c3)];
    RunConcat(ps, app, xs, ys);
    RunConcat(ps, app, xs + ys, zs);
    TypeAndSend(ps, app, x, c1);
    var a2 := Run(ps, app, xs);
    RunOne(ps, a2, TimerFired(c2));
    TypeAndSend(ps, Run(ps, a2, ys), y, c3);
  }

  /** The clock alone does not keep ids apart: from an empty log with no reply due (the
      start, for one), a send at `t`, its reply a second later and another send one
      millisecond after that give the last two messages the same id, whatever the two texts are. */
  lemma IdsCanCollide(ps: seq<ModelSelector.Provider>, app: App, x: string, y: string, t: int)
    requires app.messages == [] && app.pending == []
    requires !Strings.AllWhitespace(x) && !Strings.AllWhitespace(y)
    ensures var r := Run(ps, app, [Edit(x), ClickSend(t), TimerFired(t + 1000), Edit(y), ClickSend(t + 1001)]);
            |r.messages| == 3 && r.messages[1].id == r.messages[2].id
  {
    SendReplySend(ps, app, x, y, t, t + 1000, t + 1001);
    assert [Edit(x), ClickSend(t), TimerFired(t + 1000), Edit(y), ClickSend(t + 1001)]
        == [Edit(x), ClickSend(t)] + [TimerFired(t + 1000)] + [Edit(y), ClickSend(t + 1001)];
  }

  /** Nor do ids follow the log order: a reply fired at `c` is stamped `c + 1`, and a
      send read at the same `c` right after it is stamped `c`, below the reply before it. */
  lemma IdsCanDecrease(ps: seq<ModelSelector.Provider>, app: App, x: string, y: string, c: int)
    requires app.messages == [] && app.pending == []
    requires !Strings.AllWhitespace(x) && !Strings.AllWhitespace(y)
    ensures var r := Run(ps, app, [Edit(x), ClickSend(c), TimerFired(c), Edit(y), ClickSend(c)]);
            |r.messages| == 3 && r.messages[2].id < r.messages[1].id
  {
    SendReplySend(ps, app, x, y, c, c, c);
    assert [Edit(x), ClickSend(c), TimerFired(c), Edit(y), ClickSend(c)]
        == [Edit(x), ClickSend(c)] + [TimerFired(c)] + [Edit(y), ClickSend(c)];
  }

  /** The providers the application builds from its catalog. */
  function Providers(): seq<ModelSelector.Provider> {
    ToProviders(Catalog.Config)
  }

  /** The catalog keys lower-cased. */
  lemma LowerOpenAI()
    ensures Strings.ToLower("OpenAI") == "openai"
  {
    var o := Strings.ToLower("OpenAI");
    assert o[0] == 'o' && o[1] == 'p' && o[2] == 'e' && o[3] == 'n' && o[4] == 'a' && o[5] == 'i';
  }

  lemma LowerAnthropic()
    ensures Strings.ToLower("Anthropic") == "anthropic"
  {
    var a := Strings.ToLower("Anthropic");
    assert a[0] == 'a' && a[1] == 'n' && a[2] == 't' && a[3] == 'h' && a[4] == 'r';
    assert a[5] == 'o' && a[6] == 'p' && a[7] == 'i' && a[8] == 'c';
  }

  lemma LowerGoogle()
    ensures Strings.ToLower("Google") == "google"
  {
    var g := Strings.ToLower("Google");
    assert g[0] == 'g' && g[1] == 'o' && g[2] == 'o' && g[3] == 'g' && g[4] == 'l' && g[5] == 'e';
  }

  /** The catalog's provider ids are openai, anthropic and google, in that order. */
  lemma CatalogProviderIds()
    ensures |Providers()| == 3
    ensures Providers()[0].id == "openai" && Providers()[1].id == "anthropic" && Providers()[2].id == "google"
    ensures ModelSelector.UniqueIds(Providers())
  {
    Catalog.ConfigShape();
    LowerOpenAI();
    LowerAnthropic();
    LowerGoogle();
    var ps := Providers();
    assert ps[0].id[0] == 'o' && ps[1].id[0] == 'a' && ps[2].id[0] == 'g';
  }

  /** No model name repeats among the catalog's providers. */
  lemma CatalogModelNames()
    ensures ModelSelector.UniqueModelNames(Providers())
  {
    Catalog.ConfigShape();
    Catalog.ConfigModelNamesUnique();
  }

  /** The default model id is found under Anthropic, the second provider, and nowhere before it. */
  lemma DefaultIsAnthropic()
    ensures |Providers()| == 3 && Providers()[1].name == "Anthropic"
    ensures ModelSelector.ActiveProvider(Providers(), DefaultModelId) == Some(Providers()[1])
    ensures Providers()[1].models == [ModelSelector.Model(DefaultModelId, "Claude Sonnet 4.5")]
  {
    Catalog.ConfigShape();
    Catalog.ConfigModels();
    var ps := Providers();
    assert ModelSelector.HasModel(ps[1], DefaultModelId) by {
      assert ps[1].models[0].name == DefaultModelId;
    }
    assert !ModelSelector.HasModel(ps[0], DefaultModelId) by {
      assert ps[0].models[0].name == "gpt-5" && ps[0].models[1].name == "gpt-5.1";
      assert DefaultModelId[0] == 'c';
    }
  }

  /** For any provider list with distinct ids, a default found under a sole model of its own,
      with a non-empty label, resolves to that label, and with nothing hovered the picker
      shows that provider. */
  lemma StartsOn(ps: seq<ModelSelector.Provider>, k: nat, labelText: string)
    requires k < |ps| && ModelSelector.UniqueIds(ps)
    requires ModelSelector.ActiveProvider(ps, DefaultModelId) == Some(ps[k])
    requires ps[k].models == [ModelSelector.Model(DefaultModelId, labelText)] && labelText != ""
    ensures ModelSelector.TriggerLabel(ps, Init.selectedModelId) == labelText
    ensures ModelSelector.DisplayedProvider(ps, Init.selectedModelId, Init.picker.hovered) == Some(ps[k])
  {
    ModelSelector.DisplayFallsBackToActive(ps, DefaultModelId, None);
    assert ModelSelector.ActiveModel(ps, DefaultModelId) == Some(ps[k].models[0]);
  }

  /** At start the log and the input are empty, the default model resolves to Anthropic's
      "Claude Sonnet 4.5", and the picker shows Anthropic until something is hovered. */
  lemma InitialSelection()
    ensures Init.messages == [] && Init.input == "" && Init.pending == []
    ensures ModelSelector.ActiveProvider(Providers(), Init.selectedModelId) == Some(Providers()[1])
    ensures Providers()[1].name == "Anthropic"
    ensures ModelSelector.TriggerLabel(Providers(), Init.selectedModelId) == "Claude Sonnet 4.5"
    ensures ModelSelector.DisplayedProvider(Providers(), Init.selectedModelId, Init.picker.hovered) == Some(Providers()[1])
  {
    DefaultIsAnthropic();
    CatalogProviderIds();
    StartsOn(Providers(), 1, "Claude Sonnet 4.5");
  }

  /** With the picker closed and nothing hovered (as at the start), opening it, hovering
      any row and clicking the backdrop gives back the state as it was. */
  lemma HoverThenBackdropRestores(ps: seq<ModelSelector.Provider>, app: App, row: nat)
    requires row < |ps| && app.picker == ModelSelector.ClosedPicker
    ensures Run(ps, app, [PickerInput(ModelSelector.Toggle), PickerInput(ModelSelector.HoverRow(row)),
                          PickerInput(ModelSelector.Backdrop)]) == app
  {
    var e0, e1, e2 := PickerInput(ModelSelector.Toggle), PickerInput(ModelSelector.HoverRow(row)), PickerInput(ModelSelector.Backdrop);
    var a1 := Step(ps, app, e0);
    assert a1 == app.(picker := ModelSelector.Picker(true, None));
    var a2 := Step(ps, a1, e1);
    assert a2 == app.(picker := ModelSelector.Picker(true, Some(ps[row].id)));
    assert Step(ps, a2, e2) == app;
    RunOne(ps, a2, e2);
    RunConcat(ps, a1, [e1], [e2]);
    RunOne(ps, a1, e1);
    RunConcat(ps, app, [e0], [e1, e2]);
    RunOne(ps, app, e0);
    assert [e0, e1, e2] == [e0] + ([e1] + [e2]);
  }

  /** With the catalog: hovering OpenAI and clicking the backdrop shows Anthropic again. */
  lemma HoverThenBackdrop()
    ensures var r := Run(Providers(), Init, [PickerInput(ModelSelector.Toggle), PickerInput(ModelSelector.HoverRow(0)),
                                             PickerInput(ModelSelector.Backdrop)]);
            ModelSelector.DisplayedProvider(Providers(), r.selectedModelId, r.picker.hovered) == Some(Providers()[1])
  {
    InitialSelection();
    HoverThenBackdropRestores(Providers(), Init, 0);
  }

  /** "hello" then its reply: two messages, the user's first, the reply's id above it. */
  lemma HelloScenario(ps: seq<ModelSelector.Provider>, t0: int, t1: int)
    requires t0 <= t1
    ensures var r := Run(ps, Init, [Edit("hello"), ClickSend(t0), TimerFired(t1)]);
            && |r.messages| == 2
            && r.messages[0] == Message(t0, User, "hello", None)
            && r.messages[1] == Message(t1 + 1, Ai, ReplyText, None)
            && r.messages[0].id < r.messages[1].id
            && r.input == "" && r.pending == []
  {
    assert !Strings.IsWhitespace("hello"[0]);
    TypeAndSend(ps, Init, "hello", t0);
    var a2 := Run(ps, Init, [Edit("hello"), ClickSend(t0)]);
    RunConcat(ps, Init, [Edit("hello"), ClickSend(t0)], [TimerFired(t1)]);
    RunOne(ps, a2, TimerFired(t1));
    assert [Edit("hello"), ClickSend(t0), TimerFired(t1)] == [Edit("hello"), ClickSend(t0)] + [TimerFired(t1)];
  }

  /** Whitespace alone sends nothing and sets no timer, whether through the disabled send
      button or through Enter, which reaches the blank check of `handleSend` itself. */
  lemma BlankScenario(ps: seq<ModelSelector.Provider>, t0: int)
    ensures Run(ps, Init, [Edit("  "), ClickSend(t0)]) == Init.(input := "  ")
    ensures Run(ps, Init, [Edit("  "), KeyDown(ChatInput.KeyEvent("Enter", false), t0)]) == Init.(input := "  ")
  {
    var enter := KeyDown(ChatInput.KeyEvent("Enter", false), t0);
    assert Strings.AllWhitespace("  ");
    RunConcat(ps, Init, [Edit("  ")], [ClickSend(t0)]);
    assert [Edit("  "), ClickSend(t0)] == [Edit("  ")] + [ClickSend(t0)];
    RunOne(ps, Init, Edit("  "));
    RunOne(ps, Init.(input := "  "), ClickSend(t0));
    RunConcat(ps, Init, [Edit("  ")], [enter]);
    assert [Edit("  "), enter] == [Edit("  ")] + [enter];
    RunOne(ps, Init.(input := "  "), enter);
  }

  /** Every canned reply is shown with the legacy badge and without a tool list. */
  lemma RepliesShowBadge(id: int)
    ensures Render(Message(id, Ai, ReplyText, None)).badge
    ensures Render(Message(id, Ai, ReplyText, None)).tools == []
  {
    assert Strings.OccursAt(ReplyText, LegacyMarker, |ReplyLead|);
  }
}
