/** One message of the conversation and the layout decisions made when it is shown. */
module ChatMessage {
  import opened Wrappers
  import Strings
  import ToolIndicator

  datatype Role = User | Ai

  /** `tools` is None when the field is absent; an empty list is present. */
  datatype Message = Message(id: int, role: Role, content: string, tools: Option<seq<ToolIndicator.ToolRecord>>)

  datatype Align = Start | End

  /** The bubble's alignment, whether it is the filled user bubble, the tool
      indicators listed above the text, and whether the legacy "Verified with
      Integration DB" badge follows it. */
  datatype MessageView = MessageView(align: Align, userBubble: bool, tools: seq<ToolIndicator.ToolView>, badge: bool)

  const LegacyMarker := "integration"

  /** Renders each tool in order. */
  function RenderTools(ts: seq<ToolIndicator.ToolRecord>): (vs: seq<ToolIndicator.ToolView>)
    ensures |vs| == |ts|
    ensures forall i :: 0 <= i < |ts| ==> vs[i] == ToolIndicator.RenderRecord(ts[i])
  {
    if |ts| == 0 then [] else [ToolIndicator.RenderRecord(ts[0])] + RenderTools(ts[1..])
  }

  /** The view of one message. */
  function Render(m: Message): (v: MessageView)
    ensures v.align == End <==> m.role == User
    ensures v.userBubble <==> m.role == User
    ensures |v.tools| > 0 <==> m.role != User && m.tools.Some? && |m.tools.value| > 0
    ensures |v.tools| > 0 ==> v.tools == RenderTools(m.tools.value)
    ensures v.badge <==> m.role != User && m.tools.None? && exists i :: Strings.OccursAt(m.content, LegacyMarker, i)
  {
    Strings.ContainsIff(m.content, LegacyMarker);
    if m.role == User then
      MessageView(End, true, [], false)
    else
      MessageView(
        Start,
        false,
        if m.tools.Some? && |m.tools.value| > 0 then RenderTools(m.tools.value) else [],
        Strings.Contains(m.content, LegacyMarker) && m.tools.None?)
  }

  /** The tool list and the legacy badge never show together, and a present but
      empty tool list shows neither. */
  lemma BadgeExcludesTools(m: Message)
    ensures !(Render(m).badge && |Render(m).tools| > 0)
    ensures m.tools == Some([]) ==> !Render(m).badge && Render(m).tools == []
  {
  }
}
