/**
 * How the compiled agent wrapper turns the chat model's tool calls into the
 * reply text. The first completion's content (or a fixed apology) is the
 * starting text; each tool call in order then either appends a note or,
 * after a successful follow-up completion, replaces the text.
 */
module ToolCalls {
  import opened Basics
  import opened JsText

  const NoContentReply: string := "I apologize, but I couldn't " + "process your request at the " + "moment."
  const ToolErrorNote: string :=
    "\n\nI encountered an error while "
    + "using one of my tools. Please "
    + "try again."
  const FollowUpErrorNote: string :=
    "\n\nI encountered an error while "
    + "processing the tool results. "
    + "Please try again."

  /** What happens to a call whose action exists: the action or its argument parsing throws, the follow-up completion throws, or it answers. */
  datatype Outcome =
    | ActionFails
    | FollowUpFails
    | FollowUpAnswers(content: Option<string>)

  /** A tool call the model requested, with what running it would do. */
  datatype ToolCall = ToolCall(name: string, outcome: Outcome)

  /** The starting text: the completion's content unless it is missing or empty. */
  function InitialContent(content: Option<string>): (r: string)
    ensures r != []
    ensures content.Some? && content.value != [] ==> r == content.value
  {
    match content
    case Some(c) => if c != [] then c else NoContentReply
    case None => NoContentReply
  }

  /** The note for a call that names no known action. */
  function UnknownToolNote(name: string): string {
    "\n\nUnable to find tool: " + name
  }

  /** The text after handling one tool call. */
  function Apply(text: string, call: ToolCall, actions: set<string>): (r: string)
    ensures call.name !in actions ==> r == text + UnknownToolNote(call.name)
  {
    if call.name !in actions then text + UnknownToolNote(call.name)
    else
      match call.outcome
      case ActionFails => text + ToolErrorNote
      case FollowUpFails => text + FollowUpErrorNote
      case FollowUpAnswers(content) =>
        match content
        case Some(c) => if c != [] then c else text
        case None => text
  }

  /** The text after handling every tool call, first to last. */
  function Run(text: string, calls: seq<ToolCall>, actions: set<string>): string
    decreases |calls|
  {
    if calls == [] then text else Run(Apply(text, calls[0], actions), calls[1..], actions)
  }

  /** A call only ever adds to the text unless a follow-up completion answers it. */
  predicate Appends(call: ToolCall, actions: set<string>) {
    call.name !in actions || !call.outcome.FollowUpAnswers?
  }

  /** Handling one more call at the end is applying it to the text so far. */
  lemma {:induction false} RunSnoc(text: string, calls: seq<ToolCall>, last: ToolCall, actions: set<string>)
    ensures Run(text, calls + [last], actions) == Apply(Run(text, calls, actions), last, actions)
    decreases |calls|
  {
    if calls == [] {
      assert [last][1..] == [];
    } else {
      assert (calls + [last])[1..] == calls[1..] + [last];
      RunSnoc(Apply(text, calls[0], actions), calls[1..], last, actions);
    }
  }

  /**
   * An unknown tool appends `\n\nUnable to find tool: <name>` to whatever the
   * earlier calls produced and the loop moves on to the next call.
   */
  lemma UnknownToolAppends(text: string, before: seq<ToolCall>, name: string, outcome: Outcome, after: seq<ToolCall>, actions: set<string>)
    requires name !in actions
    ensures Run(text, before + [ToolCall(name, outcome)] + after, actions)
      == Run(Run(text, before, actions) + UnknownToolNote(name), after, actions)
  {
    RunSnoc(text, before, ToolCall(name, outcome), actions);
    RunConcat(text, before + [ToolCall(name, outcome)], after, actions);
  }

  lemma {:induction false} RunConcat(text: string, a: seq<ToolCall>, b: seq<ToolCall>, actions: set<string>)
    ensures Run(text, a + b, actions) == Run(Run(text, a, actions), b, actions)
    decreases |a|
  {
    if a == [] {
      assert a + b == b;
    } else {
      assert (a + b)[0] == a[0];
      assert (a + b)[1..] == a[1..] + b;
      RunConcat(Apply(text, a[0], actions), a[1..], b, actions);
    }
  }

  /** When no call is answered by a follow-up, earlier content is never replaced: the final text extends the starting text. */
  lemma {:induction false} AppendOnlyKeepsContent(text: string, calls: seq<ToolCall>, actions: set<string>)
    requires forall i :: 0 <= i < |calls| ==> Appends(calls[i], actions)
    ensures StartsWith(Run(text, calls, actions), text)
    decreases |calls|
  {
    if calls != [] {
      var next := Apply(text, calls[0], actions);
      assert Appends(calls[0], actions);
      assert StartsWith(next, text) by {
        assert next[..|text|] == text;
      }
      AppendOnlyKeepsContent(next, calls[1..], actions);
      var r := Run(text, calls, actions);
      assert r[..|text|] == r[..|next|][..|text|];
    }
  }

  /** Only unknown tools: the reply is the starting text followed by one note per call, in order. */
  lemma {:induction false} UnknownToolsOnly(text: string, names: seq<string>, actions: set<string>)
    requires forall i :: 0 <= i < |names| ==> names[i] !in actions
    ensures Run(text, FailedCalls(names), actions) == text + Notes(names)
    decreases |names|
  {
    if names != [] {
      var last := |names| - 1;
      var front := names[..last];
      UnknownToolsOnly(text, front, actions);
      RunSnoc(text, FailedCalls(front), ToolCall(names[last], ActionFails), actions);
    }
  }

  /** A call of each named tool, in order, every one failing. */
  function FailedCalls(names: seq<string>): (calls: seq<ToolCall>)
    ensures |calls| == |names|
    ensures forall i :: 0 <= i < |names| ==> calls[i] == ToolCall(names[i], ActionFails)
    decreases |names|
  {
    if names == [] then [] else FailedCalls(names[..|names| - 1]) + [ToolCall(names[|names| - 1], ActionFails)]
  }

  function Notes(names: seq<string>): string
    decreases |names|
  {
    if names == [] then "" else Notes(names[..|names| - 1]) + UnknownToolNote(names[|names| - 1])
  }
}
