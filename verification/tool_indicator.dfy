/** The badge rendered for one tool call inside an assistant message. */
module ToolIndicator {
  import opened Wrappers
  import Strings

  datatype Status = Running | Complete

  /** A tool call as attached to a message: a free-form `type` and optional fields. */
  datatype ToolRecord = ToolRecord(
    kind: string,
    query: Option<string>,
    code: Option<string>,
    prompt: Option<string>,
    status: Option<Status>,
    name: Option<string>)

  /** The tool calls the indicator knows, each with the fields it reads, and a
      fallback for every other `type`. */
  datatype Tool =
    | Search(query: Option<string>)
    | CodeInterpreter(code: Option<string>, status: Option<Status>)
    | FileSearch(query: Option<string>)
    | ImageGeneration(prompt: Option<string>)
    | Generic(kind: string, name: Option<string>, status: Option<Status>)

  datatype Icon = Globe | CodeIcon | FileText | ImageIcon | Terminal

  /** What the indicator shows: an icon, a text, a spinner, a check mark, and the "Done" caption. */
  datatype ToolView = ToolView(icon: Icon, text: string, spinner: bool, check: bool, done: bool)

  const KnownKinds: set<string> := {"search", "code_interpreter", "file_search", "image_generation"}

  /** A fallback tool never carries one of the known type names. */
  predicate WellTagged(t: Tool) {
    t.Generic? ==> t.kind !in KnownKinds
  }

  /** The `switch (tool.type)`: the four known names, and the default case. */
  function Classify(r: ToolRecord): (t: Tool)
    ensures WellTagged(t)
    ensures t.Generic? <==> r.kind !in KnownKinds
    ensures t.Generic? ==> t == Generic(r.kind, r.name, r.status)
    ensures t.Search? <==> r.kind == "search"
    ensures t.CodeInterpreter? <==> r.kind == "code_interpreter"
    ensures t.FileSearch? <==> r.kind == "file_search"
    ensures t.ImageGeneration? <==> r.kind == "image_generation"
    ensures (t.Search? || t.FileSearch?) ==> t.query == r.query
    ensures t.CodeInterpreter? ==> t.code == r.code && t.status == r.status
    ensures t.ImageGeneration? ==> t.prompt == r.prompt
  {
    match r.kind
    case "search" => Search(r.query)
    case "code_interpreter" => CodeInterpreter(r.code, r.status)
    case "file_search" => FileSearch(r.query)
    case "image_generation" => ImageGeneration(r.prompt)
    case _ => Generic(r.kind, r.name, r.status)
  }

  /** The record a tool is written as, with the fields it does not read left unset. */
  function Erase(t: Tool): ToolRecord {
    match t
    case Search(q) => ToolRecord("search", q, None, None, None, None)
    case CodeInterpreter(c, s) => ToolRecord("code_interpreter", None, c, None, s, None)
    case FileSearch(q) => ToolRecord("file_search", q, None, None, None, None)
    case ImageGeneration(p) => ToolRecord("image_generation", None, None, p, None, None)
    case Generic(k, n, s) => ToolRecord(k, None, None, None, s, n)
  }

  /** Classification recovers every well-tagged tool from its record. */
  lemma ClassifyErase(t: Tool)
    requires WellTagged(t)
    ensures Classify(Erase(t)) == t
  {
  }

  /** An optional text interpolated into markup: undefined shows as nothing. */
  function Shown(o: Option<string>): string {
    o.GetOr("")
  }

  /** `tool.name || 'Tool'`. */
  function ToolName(name: Option<string>): (s: string)
    ensures s != ""
    ensures name.Some? && name.value != "" ==> s == name.value
    ensures !(name.Some? && name.value != "") ==> s == "Tool"
  {
    if name.Some? && name.value != "" then name.value else "Tool"
  }

  /** The captions around each kind's argument. */
  const SearchLead := "Searching: \""
  const CodeLead := "Code: "
  const ReadLead := "Reading: "
  const GenerateLead := "Generating: \""
  const RunLead := "Running "
  const Quote := "\""
  const Ellipsis := "..."

  /** The view of one tool. */
  function Render(t: Tool): (v: ToolView)
    ensures !(v.spinner && v.check)
    ensures v.spinner <==> t.CodeInterpreter? && t.status == Some(Running)
    ensures t.CodeInterpreter? ==> (v.check <==> t.status == Some(Complete))
    ensures t.ImageGeneration? ==> v.check
    ensures v.done <==> t.Generic? && t.status == Some(Complete)
    ensures t.Generic? ==> (v.check <==> v.done)
    ensures (t.Search? || t.FileSearch?) ==> !v.check
  {
    match t
    case Search(q) => ToolView(Globe, SearchLead + Shown(q) + Quote, false, false, false)
    case CodeInterpreter(c, s) => ToolView(CodeIcon, CodeLead + Shown(c), s == Some(Running), s == Some(Complete), false)
    case FileSearch(q) => ToolView(FileText, ReadLead + Shown(q), false, false, false)
    case ImageGeneration(p) => ToolView(ImageIcon, GenerateLead + Shown(p) + Quote, false, true, false)
    case Generic(_, n, s) => ToolView(Terminal, RunLead + ToolName(n) + Ellipsis, false, s == Some(Complete), s == Some(Complete))
  }

  /** The indicator for a tool record: dispatch on its type, then render. */
  function RenderRecord(r: ToolRecord): ToolView {
    Render(Classify(r))
  }

  /** The icon tells which kind of tool is shown. */
  lemma IconIdentifiesKind(t1: Tool, t2: Tool)
    requires Render(t1).icon == Render(t2).icon
    ensures t1.Search? == t2.Search? && t1.CodeInterpreter? == t2.CodeInterpreter?
    ensures t1.FileSearch? == t2.FileSearch? && t1.ImageGeneration? == t2.ImageGeneration?
    ensures t1.Generic? == t2.Generic?
  {
  }

  /** Cancels a common prefix and suffix around two texts. */
  lemma {:induction false} Unwrap(pre: string, a: string, b: string, post: string)
    requires pre + a + post == pre + b + post
    ensures a == b
  {
    var x := pre + a + post;
    assert |a| == |b|;
    assert a == x[|pre|..|pre| + |a|];
    assert b == x[|pre|..|pre| + |b|];
  }

  /** The search text shows the query: two searches look alike only when their queries read the same. */
  lemma SearchTextShowsQuery(q1: Option<string>, q2: Option<string>)
    requires Render(Search(q1)).text == Render(Search(q2)).text
    ensures Shown(q1) == Shown(q2)
  {
    Unwrap(SearchLead, Shown(q1), Shown(q2), Quote);
  }

  /** The file-search text shows the query likewise. */
  lemma FileSearchTextShowsQuery(q1: Option<string>, q2: Option<string>)
    requires Render(FileSearch(q1)).text == Render(FileSearch(q2)).text
    ensures Shown(q1) == Shown(q2)
  {
    Unwrap(ReadLead, Shown(q1), Shown(q2), "");
  }

  /** A fallback tool without a usable name is announced as "Running Tool...". */
  lemma GenericNameFallback(kind: string, s: Option<Status>)
    ensures Render(Generic(kind, None, s)).text == "Running Tool..."
    ensures Render(Generic(kind, Some(""), s)).text == "Running Tool..."
  {
  }

  /** `text` reads `lead`, then `arg` at position `|lead|`, then `tail`, and nothing more. */
  predicate Reads(text: string, lead: string, arg: string, tail: string) {
    && |text| == |lead| + |arg| + |tail|
    && text[..|lead|] == lead
    && Strings.OccursAt(text, arg, |lead|)
    && text[|lead| + |arg|..] == tail
  }

  lemma ReadsConcat(lead: string, arg: string, tail: string)
    ensures Reads(lead + arg + tail, lead, arg, tail)
  {
    var text := lead + arg + tail;
    assert text[..|lead|] == lead;
    assert text[|lead|..|lead| + |arg|] == arg;
    assert text[|lead| + |arg|..] == tail;
  }

  /** Each indicator's caption: the search query in quotes after "Searching: ", the code
      after "Code: ", the file query after "Reading: ", the prompt in quotes after
      "Generating: ", and the tool's name (or "Tool") between "Running " and "...". */
  lemma TextShowsArgument(t: Tool)
    ensures t.Search? ==> Reads(Render(t).text, "Searching: \"", Shown(t.query), "\"")
    ensures t.CodeInterpreter? ==> Reads(Render(t).text, "Code: ", Shown(t.code), "")
    ensures t.FileSearch? ==> Reads(Render(t).text, "Reading: ", Shown(t.query), "")
    ensures t.ImageGeneration? ==> Reads(Render(t).text, "Generating: \"", Shown(t.prompt), "\"")
    ensures t.Generic? ==> Reads(Render(t).text, "Running ", ToolName(t.name), "...")
  {
    match t
    case Search(q) => ReadsConcat(SearchLead, Shown(q), Quote);
    case CodeInterpreter(c, _) =>
      ReadsConcat(CodeLead, Shown(c), "");
      assert CodeLead + Shown(c) + "" == CodeLead + Shown(c);
    case FileSearch(q) =>
      ReadsConcat(ReadLead, Shown(q), "");
      assert ReadLead + Shown(q) + "" == ReadLead + Shown(q);
    case ImageGeneration(p) => ReadsConcat(GenerateLead, Shown(p), Quote);
    case Generic(_, n, _) => ReadsConcat(RunLead, ToolName(n), Ellipsis);
  }

  /** A generic tool with a non-empty name shows that name right after "Running ". */
  lemma GenericShowsName(kind: string, name: string, s: Option<Status>)
    requires name != ""
    ensures Strings.OccursAt(Render(Generic(kind, Some(name), s)).text, name, 8)
  {
    TextShowsArgument(Generic(kind, Some(name), s));
  }
}
