/** The two-pane model picker: providers on the left, the models of the displayed
    provider on the right. The committed selection belongs to the parent; the
    picker only keeps whether it is open and which provider row is hovered. */
module ModelSelector {
  import opened Wrappers
  import Lookup

  datatype Model = Model(name: string, labelText: string)

  /** A provider as the picker receives it; the colour fields are styling and omitted. */
  datatype Provider = Provider(id: string, name: string, models: seq<Model>, icon: string)

  /** The picker's own state: `isOpen` and `hoveredProviderId` (None for null). */
  datatype Picker = Picker(isOpen: bool, hovered: Option<string>)

  /** What the user can do to the picker. Rows and model buttons are addressed by
      their position in the rendered lists. */
  datatype PickerEvent =
    | Toggle                   // the trigger button
    | Backdrop                 // the full-screen layer behind the open dropdown
    | HoverRow(row: nat)       // the mouse enters a provider row
    | ClickModel(index: nat)   // a model button of the displayed provider

  /** The new picker state, and the model id reported to the parent, if any. */
  datatype Outcome = Outcome(picker: Picker, report: Option<string>)

  const ClosedPicker := Picker(false, None)
  const NoSelectionLabel := "Select Model"

  predicate HasModel(p: Provider, modelId: string) {
    exists i | 0 <= i < |p.models| :: p.models[i].name == modelId
  }

  /** JavaScript truthiness of `hoveredProviderId`: set and not the empty string. */
  predicate Truthy(hovered: Option<string>) {
    hovered.Some? && hovered.value != ""
  }

  ghost predicate UniqueIds(ps: seq<Provider>) {
    forall i, j :: 0 <= i < j < |ps| ==> ps[i].id != ps[j].id
  }

  /** No model name appears twice in the whole catalog. */
  ghost predicate UniqueModelNames(ps: seq<Provider>) {
    forall i, j, k, l ::
      0 <= i < |ps| && 0 <= j < |ps[i].models| && 0 <= k < |ps| && 0 <= l < |ps[k].models|
      && ps[i].models[j].name == ps[k].models[l].name
      ==> i == k && j == l
  }

  /** The hover is unset or names a listed provider. */
  ghost predicate HoverListed(ps: seq<Provider>, st: Picker) {
    st.hovered.Some? ==> exists i :: 0 <= i < |ps| && ps[i].id == st.hovered.value
  }

  /** `activeProvider`: the first provider, in list order, offering a model named `selected`. */
  function ActiveProvider(ps: seq<Provider>, selected: string): (r: Option<Provider>)
    ensures r.Some? <==> exists i :: 0 <= i < |ps| && HasModel(ps[i], selected)
    ensures r.Some? ==> exists i ::
              && 0 <= i < |ps| && ps[i] == r.value && HasModel(r.value, selected)
              && forall j :: 0 <= j < i ==> !HasModel(ps[j], selected)
  {
    Lookup.Find(ps, (p: Provider) => HasModel(p, selected))
  }

  /** `activeModel`: the first model named `selected` inside the active provider. */
  function ActiveModel(ps: seq<Provider>, selected: string): (r: Option<Model>)
    ensures r.Some? <==> ActiveProvider(ps, selected).Some?
    ensures r.Some? ==> r.value.name == selected && r.value in ActiveProvider(ps, selected).value.models
    ensures r.Some? ==>
              var ms := ActiveProvider(ps, selected).value.models;
              exists j :: 0 <= j < |ms| && ms[j] == r.value && forall k :: 0 <= k < j ==> ms[k].name != selected
  {
    match ActiveProvider(ps, selected)
    case None => None
    case Some(p) => Lookup.Find(p.models, (m: Model) => m.name == selected)
  }

  /** `displayedProviderId`: a truthy hover wins, otherwise the active provider's id. */
  function DisplayedId(ps: seq<Provider>, selected: string, hovered: Option<string>): Option<string> {
    if Truthy(hovered) then hovered
    else
      match ActiveProvider(ps, selected)
      case None => None
      case Some(p) => Some(p.id)
  }

  /** `displayedProvider`: the first listed provider carrying the displayed id. */
  function DisplayedProvider(ps: seq<Provider>, selected: string, hovered: Option<string>): (r: Option<Provider>)
    ensures r.Some? ==> r.value in ps
    ensures Truthy(hovered) ==>
              (r.Some? <==> exists i :: 0 <= i < |ps| && ps[i].id == hovered.value)
              && (r.Some? ==> r.value.id == hovered.value)
    ensures !Truthy(hovered) ==>
              (r.Some? <==> ActiveProvider(ps, selected).Some?)
              && (r.Some? ==> r.value.id == ActiveProvider(ps, selected).value.id)
    ensures r.Some? ==> exists i :: 0 <= i < |ps| && ps[i] == r.value && forall j :: 0 <= j < i ==> ps[j].id != r.value.id
  {
    match DisplayedId(ps, selected, hovered)
    case None => None
    case Some(id) => Lookup.Find(ps, (p: Provider) => p.id == id)
  }

  /** With distinct provider ids, leaving the hover falls back to exactly the active provider. */
  lemma DisplayFallsBackToActive(ps: seq<Provider>, selected: string, hovered: Option<string>)
    requires UniqueIds(ps)
    requires !Truthy(hovered)
    ensures DisplayedProvider(ps, selected, hovered) == ActiveProvider(ps, selected)
  {
    var d := DisplayedProvider(ps, selected, hovered);
    var a := ActiveProvider(ps, selected);
    if d.Some? {
      var i :| 0 <= i < |ps| && ps[i] == d.value;
      var k :| 0 <= k < |ps| && ps[k] == a.value;
      assert ps[i].id == ps[k].id;
      assert i == k;
    }
  }

  /** `isSelected` of a model button. */
  predicate IsSelected(selected: string, m: Model) {
    selected == m.name
  }

  /** Background highlight of a provider row: hovered, or the active provider. */
  function RowHighlighted(ps: seq<Provider>, selected: string, hovered: Option<string>, p: Provider): (b: bool)
    ensures b <==> hovered == Some(p.id) || exists i :: 0 <= i < |ps| && ps[i].id == p.id && ActiveProvider(ps, selected) == Some(ps[i])
  {
    hovered == Some(p.id) || (ActiveProvider(ps, selected).Some? && ActiveProvider(ps, selected).value.id == p.id)
  }

  /** With no hover and distinct ids, row `i` is highlighted exactly when it is the active provider. */
  lemma HighlightWithoutHover(ps: seq<Provider>, selected: string, i: nat)
    requires UniqueIds(ps) && i < |ps|
    ensures RowHighlighted(ps, selected, None, ps[i]) <==> ActiveProvider(ps, selected) == Some(ps[i])
  {
    if RowHighlighted(ps, selected, None, ps[i]) {
      var k :| 0 <= k < |ps| && ps[k].id == ps[i].id && ActiveProvider(ps, selected) == Some(ps[k]);
      assert k == i;
    }
  }

  /** With unique model names, at most one model button in the whole catalog is marked selected. */
  lemma AtMostOneSelected(ps: seq<Provider>, selected: string, i: nat, j: nat, k: nat, l: nat)
    requires UniqueModelNames(ps)
    requires i < |ps| && j < |ps[i].models| && k < |ps| && l < |ps[k].models|
    requires IsSelected(selected, ps[i].models[j]) && IsSelected(selected, ps[k].models[l])
    ensures i == k && j == l
  {
  }

  /** The trigger button text: the active model's label, `'Select Model'` when it is missing or empty. */
  function TriggerLabel(ps: seq<Provider>, selected: string): (s: string)
    ensures ActiveModel(ps, selected).None? ==> s == NoSelectionLabel
    ensures s != NoSelectionLabel ==>
              exists i, j :: 0 <= i < |ps| && 0 <= j < |ps[i].models|
                && ps[i].models[j].name == selected && ps[i].models[j].labelText == s
    ensures ActiveModel(ps, selected).Some? && ActiveModel(ps, selected).value.labelText != "" ==>
              s == ActiveModel(ps, selected).value.labelText
    ensures ActiveModel(ps, selected).Some? && ActiveModel(ps, selected).value.labelText == "" ==>
              s == NoSelectionLabel
    ensures s != ""
  {
    match ActiveModel(ps, selected)
    case Some(m) => if m.labelText != "" then m.labelText else NoSelectionLabel
    case None => NoSelectionLabel
  }

  /** The model buttons a click can reach: those of the displayed provider while open. */
  function ClickableModels(ps: seq<Provider>, selected: string, st: Picker): seq<Model> {
    if !st.isOpen then []
    else
      match DisplayedProvider(ps, selected, st.hovered)
      case None => []
      case Some(p) => p.models
  }

  /** One event applied to the picker. Events whose target is not rendered
      (backdrop, rows and model buttons while closed) change nothing. */
  function Step(ps: seq<Provider>, selected: string, st: Picker, ev: PickerEvent): (o: Outcome)
    ensures o.report.Some? <==> ev.ClickModel? && ev.index < |ClickableModels(ps, selected, st)|
    ensures o.report.Some? ==>
              && o.report.value == ClickableModels(ps, selected, st)[ev.index].name
              && o.picker == ClosedPicker
    ensures ev.Toggle? ==> o.picker.isOpen == !st.isOpen && o.picker.hovered == st.hovered
    ensures ev.Backdrop? ==> o.picker == (if st.isOpen then ClosedPicker else st)
    ensures ev.HoverRow? ==>
              o.picker == (if st.isOpen && ev.row < |ps| then st.(hovered := Some(ps[ev.row].id)) else st)
    ensures ev.ClickModel? && ev.index >= |ClickableModels(ps, selected, st)| ==> o.picker == st
  {
    match ev
    case Toggle => Outcome(st.(isOpen := !st.isOpen), None)
    case Backdrop => if st.isOpen then Outcome(ClosedPicker, None) else Outcome(st, None)
    case HoverRow(row) =>
      if st.isOpen && row < |ps| then Outcome(st.(hovered := Some(ps[row].id)), None) else Outcome(st, None)
    case ClickModel(index) =>
      var models := ClickableModels(ps, selected, st);
      if index < |models| then Outcome(ClosedPicker, Some(models[index].name)) else Outcome(st, None)
  }

  /** Hovering a row of the open picker lists that row's provider, whatever was
      selected or hovered before. */
  lemma HoverShowsRow(ps: seq<Provider>, selected: string, st: Picker, row: nat)
    requires UniqueIds(ps) && st.isOpen && row < |ps| && ps[row].id != ""
    ensures var o := Step(ps, selected, st, HoverRow(row));
            && o.picker.isOpen && o.report.None?
            && DisplayedProvider(ps, selected, o.picker.hovered) == Some(ps[row])
  {
    var d := DisplayedProvider(ps, selected, Some(ps[row].id));
    assert d.Some? by {
      assert 0 <= row < |ps| && ps[row].id == Some(ps[row].id).value;
    }
  }

  /** Every step keeps the hover on a listed provider. */
  lemma StepKeepsHoverListed(ps: seq<Provider>, selected: string, st: Picker, ev: PickerEvent)
    requires HoverListed(ps, st)
    ensures HoverListed(ps, Step(ps, selected, st, ev).picker)
  {
    if ev.HoverRow? && st.isOpen && ev.row < |ps| {
      assert ps[ev.row].id == Step(ps, selected, st, ev).picker.hovered.value;
    }
  }

  /** A clicked model is offered by some listed provider, so the reported id resolves:
      afterwards the active model carries exactly that name. */
  lemma SelectionResolves(ps: seq<Provider>, selected: string, st: Picker, index: nat)
    requires index < |ClickableModels(ps, selected, st)|
    ensures var o := Step(ps, selected, st, ClickModel(index));
            && o.report.Some?
            && ActiveModel(ps, o.report.value).Some?
            && ActiveModel(ps, o.report.value).value.name == o.report.value
  {
    var p := DisplayedProvider(ps, selected, st.hovered).value;
    var i :| 0 <= i < |ps| && ps[i] == p;
    var name := p.models[index].name;
    assert HasModel(ps[i], name);
  }
}
