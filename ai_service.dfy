// The pure parts of AiService (app/services/ai_service.py): how the chat
// history is rendered into the prompt and how the CLI's output is turned
// into a reply. The AI process itself is not modelled; `json.loads` is a
// partial function passed in by the caller.

module AiService {
  import opened Common

  /** One requested order line as the AI writes it; missing keys already
      carry the source's defaults (quantity 1, empty note, no category as
      ""). `MalformedItem` is an entry that is not an object, so reading it
      raises. */
  datatype ItemRequest =
    | ItemRequest(name: string, quantity: int, note: string, category: string)
    | MalformedItem

  /** The actions the AI may return, keyed by their "type" string.
      `MalformedData(type)` is an action whose "data" is not an object. */
  datatype AiAction =
    | CreateOrder(items: seq<ItemRequest>)                  // group_create_order
    | RemoveItem(itemName: string, quantity: int)           // group_remove_item
    | CancelOrder                                           // group_cancel_order
    | UpdateOrder(oldItem: string, newItem: ItemRequest)    // group_update_order
    | SetTodayStore(storeId: Option<Id>, groupId: Option<Id>)
    | AddTodayStore(storeId: Option<Id>, groupId: Option<Id>)
    | RemoveTodayStore(storeId: Option<Id>, groupId: Option<Id>)
    | SubmitApplication(groupName: string, contactInfo: string, groupCode: string)
    | OtherAction(actionType: string)
    | MalformedData(actionType: string)

  /** The reply dictionary, read the way every caller reads it
      (`.get("message", "")`, `.get("actions", [])`). */
  datatype AiReply = AiReply(message: string, actions: seq<AiAction>)

  // ---------------------------------------------------------------
  // _format_chat_history

  datatype HistoryMessage = HistoryMessage(role: string, name: string, content: string)

  const NoHistoryText: string := "(無先前對話)"
  const DefaultUserName: string := "使用者"
  const AssistantLabel: string := "助手"

  /** A user line carries the sender's name (the default when the name is
      missing or empty); every other role is labelled as the assistant. */
  function FormatLine(m: HistoryMessage): string {
    if m.role == "user" then (if m.name == "" then DefaultUserName else m.name) + ": " + m.content
    else AssistantLabel + ": " + m.content
  }

  function HistoryLines(history: seq<HistoryMessage>): (lines: seq<string>)
    ensures |lines| == |history|
    ensures forall i :: 0 <= i < |history| ==> lines[i] == FormatLine(history[i])
  {
    seq(|history|, i requires 0 <= i < |history| => FormatLine(history[i]))
  }

  /** `"\n".join(lines)`. */
  function JoinLines(lines: seq<string>): string {
    if lines == [] then []
    else if |lines| == 1 then lines[0]
    else lines[0] + "\n" + JoinLines(lines[1..])
  }

  /** `text.split("\n")`. */
  function SplitLines(text: string): seq<string>
    decreases |text|
  {
    if '\n' !in text then [text]
    else
      var k := IndexOfChar(text, '\n');
      [text[..k]] + SplitLines(text[k + 1..])
  }

  function IndexOfChar(s: string, c: char): (r: nat)
    requires c in s
    ensures r < |s| && s[r] == c && c !in s[..r]
  {
    if s[0] == c then 0 else 1 + IndexOfChar(s[1..], c)
  }

  /** Lines without line breaks survive the join: splitting the rendered
      history gives back exactly one line per message, in order. */
  lemma {:induction false} JoinSplitRoundTrip(lines: seq<string>)
    requires lines != []
    requires forall i :: 0 <= i < |lines| ==> '\n' !in lines[i]
    ensures SplitLines(JoinLines(lines)) == lines
    decreases |lines|
  {
    if |lines| > 1 {
      var l := lines[0];
      var t := JoinLines(lines);
      var rest := JoinLines(lines[1..]);
      assert t == l + "\n" + rest;
      assert t[|l|] == '\n';
      assert '\n' in t;
      assert t[..|l|] == l;
      assert IndexOfChar(t, '\n') == |l|;
      assert t[|l| + 1..] == rest;
      JoinSplitRoundTrip(lines[1..]);
    }
  }

  /** `_format_chat_history`: accumulates one line per message. */
  method FormatChatHistory(history: seq<HistoryMessage>) returns (text: string)
    ensures history == [] ==> text == NoHistoryText
    ensures history != [] ==> text == JoinLines(HistoryLines(history))
  {
    if history == [] {
      return NoHistoryText;
    }
    var lines: seq<string> := [];
    var i := 0;
    while i < |history|
      invariant 0 <= i <= |history|
      invariant lines == HistoryLines(history[..i])
    {
      lines := lines + [FormatLine(history[i])];
      i := i + 1;
    }
    assert history[..i] == history;
    text := JoinLines(lines);
  }

  /** With no line breaks inside names or contents, the rendered history
      has one line per message, in order, each formatted by its role. */
  lemma FormattedHistoryLines(history: seq<HistoryMessage>)
    requires history != []
    requires forall i :: 0 <= i < |history| ==> '\n' !in history[i].name && '\n' !in history[i].content
    ensures var lines := SplitLines(JoinLines(HistoryLines(history)));
      |lines| == |history| && forall i :: 0 <= i < |history| ==> lines[i] == FormatLine(history[i])
  {
    var ls := HistoryLines(history);
    forall i | 0 <= i < |ls| ensures '\n' !in ls[i] {
      var m := history[i];
      if m.role == "user" {
        var n := if m.name == "" then DefaultUserName else m.name;
        assert '\n' !in n;
        assert ls[i] == n + ": " + m.content;
      } else {
        assert ls[i] == AssistantLabel + ": " + m.content;
      }
    }
    JoinSplitRoundTrip(ls);
  }

  // ---------------------------------------------------------------
  // _parse_response

  const NoReplyText: string := "AI 沒有回應"
  const CliFailedPrefix: string := "CLI 執行失敗："
  const UnknownErrorText: string := "未知錯誤"

  /** `re.sub(r'^```(?:json)?\s*', '', t)`. */
  function DropLeadingFence(t: string): string {
    if StartsWith(t, "```") then
      var u := t[3..];
      TrimLeft(if StartsWith(u, "json") then u[4..] else u)
    else t
  }

  /** `re.sub(r'\s*```$', '', t)`. */
  function DropTrailingFence(t: string): string {
    if EndsWith(t, "```") then TrimRight(t[..|t| - 3]) else t
  }

  function LastIndexOfChar(s: string, c: char): (r: nat)
    requires c in s
    ensures r < |s| && s[r] == c && c !in s[r + 1..]
  {
    if s[|s| - 1] == c then |s| - 1
    else
      assert c in s[..|s| - 1] by {
        var k :| 0 <= k < |s| && s[k] == c;
        assert s[..|s| - 1][k] == c;
      }
      LastIndexOfChar(s[..|s| - 1], c)
  }

  /** `re.search(r'\{[\s\S]*\}', t)`: from the first '{' to the last '}'
      after it, when there is one. */
  function JsonSpan(t: string): (r: Option<string>)
    ensures r.Some? ==> exists i :: 0 <= i && i + |r.value| <= |t| && t[i..i + |r.value|] == r.value
                          && '{' !in t[..i] && '}' !in t[i + |r.value|..]
    ensures r.Some? ==> |r.value| >= 2 && r.value[0] == '{' && r.value[|r.value| - 1] == '}'
    ensures r.None? <==> !('{' in t && '}' in t[IndexOfChar(t, '{') + 1..])
  {
    if '{' in t && '}' in t[IndexOfChar(t, '{') + 1..] then
      var i := IndexOfChar(t, '{');
      var j := LastIndexOfChar(t, '}');
      assert j > i by {
        var k :| 0 <= k < |t[i + 1..]| && t[i + 1..][k] == '}';
        assert t[i + 1 + k] == '}';
      }
      Some(t[i..j + 1])
    else None
  }

  /** `_parse_response`; `jsonLoads` returns None where `json.loads`
      raises `JSONDecodeError`. */
  function ParseResponse(stdout: string, stderr: string, returnCode: int,
                         jsonLoads: string -> Option<AiReply>): AiReply
  {
    var text := Strip(stdout);
    if text == [] then
      if returnCode != 0 then AiReply(CliFailedPrefix + (if stderr == "" then UnknownErrorText else stderr), [])
      else AiReply(NoReplyText, [])
    else
      var clean := Strip(DropTrailingFence(DropLeadingFence(text)));
      match JsonSpan(clean)
      case None => AiReply(text, [])
      case Some(span) =>
        match jsonLoads(span)
        case None => AiReply(text, [])
        case Some(reply) => reply
  }

  /** Empty output always yields an error message and no actions; the CLI
      failure message carries stderr, or a fixed text when stderr is empty. */
  lemma EmptyOutputHasNoActions(stdout: string, stderr: string, returnCode: int,
                                jsonLoads: string -> Option<AiReply>)
    requires Strip(stdout) == []
    ensures var r := ParseResponse(stdout, stderr, returnCode, jsonLoads);
      r.actions == []
      && (returnCode == 0 ==> r.message == NoReplyText)
      && (returnCode != 0 ==> StartsWith(r.message, CliFailedPrefix)
                               && r.message[|CliFailedPrefix|..] == (if stderr == "" then UnknownErrorText else stderr))
  {
  }

  /** Non-empty output is either the decoded JSON object found between
      the first '{' and the last '}', or, when there is no such span or it
      does not decode, the raw stripped text with no actions. */
  lemma ParsedOrRaw(stdout: string, stderr: string, returnCode: int,
                    jsonLoads: string -> Option<AiReply>)
    requires Strip(stdout) != []
    ensures var r := ParseResponse(stdout, stderr, returnCode, jsonLoads);
      var clean := Strip(DropTrailingFence(DropLeadingFence(Strip(stdout))));
      (JsonSpan(clean).Some? && jsonLoads(JsonSpan(clean).value).Some? ==> r == jsonLoads(JsonSpan(clean).value).value)
      && (JsonSpan(clean).None? || jsonLoads(JsonSpan(clean).value).None? ==> r == AiReply(Strip(stdout), []))
  {
  }
}
