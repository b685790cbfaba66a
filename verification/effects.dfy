/**
 * What a handler does, as an ordered list of outputs: messages sent to the
 * chat, status-message bookkeeping, the typing indicator, and calls into the
 * collaborators (Supabase, Privy, the image model, Pinata, the Solana agent).
 * Collaborator results are not computed here; the routers take them as inputs.
 */
module Effects {
  import opened Basics
  import opened Telegram
  import opened Prompts
  import opened ImageList

  /** A call into a collaborator the repository does not implement. */
  datatype Call =
    | FetchUserImages
    | FetchImageById(imageId: string)
    | CheckDelegation
    | WalletOperation(action: string)
    | GenerateImage(prompt: string, transparent: bool)
    | UploadImage(source: string)
    | UploadMetadata(metadata: NftMetadata)
    | Agent(prompt: string)

  /** What the image model and `storeImage` hand back: the stored row's id and public URL. */
  datatype StoredImage = StoredImage(id: string, url: string)

  /**
   * The first Telegram request of an update that fails, if any. `stage`
   * numbers a handler's status messages from 1; the other requests are the
   * handler's final answer and the "typing" chat action.
   */
  datatype Fault =
    | NoFault
    | StatusReplyFails(stage: nat)
    | DeleteFails(stage: nat)
    | FinalReplyFails
    | ChatActionFails

  /**
   * The collaborators' answers for one update: `getUserImages`, the legacy
   * lookup of one image by id, the agent's reply, the Privy delegation flag,
   * the generated and stored image, the IPFS hashes of the two Pinata uploads
   * (`None` when an upload or the image download fails), and Telegram faults.
   */
  datatype Oracle = Oracle(
    images: Rows,
    lookup: Option<ImageRecord>,
    agentReply: string,
    delegated: bool,
    generated: Option<StoredImage>,
    pinnedImage: Option<string>,
    pinnedMetadata: Option<string>,
    fault: Fault)

  datatype Output =
    | Reply(text: string, keyboard: Keyboard)
    | MarkdownReply(text: string)
    | PhotoReply(caption: string, keyboard: Keyboard)
    | StatusSent(slot: nat, text: string)
    | StatusDeleted(slot: nat)
    | StatusDeleteAttempted(slot: nat)
    | ChatAction
    | TypingStarted
    | TypingCleared
    | SetCommands(commands: seq<string>)
    | Invoke(call: Call)

  /** A message the user reads as the handler's answer. */
  predicate IsReply(o: Output) {
    o.Reply? || o.MarkdownReply? || o.PhotoReply?
  }

  predicate IsAgentCall(o: Output) {
    o.Invoke? && o.call.Agent?
  }

  /** Number of outputs satisfying `p`. */
  function Count(outs: seq<Output>, p: Output -> bool): (n: nat)
    ensures n <= |outs|
    ensures n == 0 <==> forall i :: 0 <= i < |outs| ==> !p(outs[i])
  {
    if outs == [] then 0
    else
      var rest := Count(outs[1..], p);
      assert forall i :: 1 <= i < |outs| ==> outs[1..][i - 1] == outs[i];
      (if p(outs[0]) then 1 else 0) + rest
  }

  /** Counting distributes over concatenation of output lists. */
  lemma {:induction false} CountConcat(a: seq<Output>, b: seq<Output>, p: Output -> bool)
    ensures Count(a + b, p) == Count(a, p) + Count(b, p)
  {
    if a == [] {
      assert a + b == b;
    } else {
      var ab := a + b;
      assert ab[0] == a[0];
      assert ab[1..] == a[1..] + b;
      CountConcat(a[1..], b, p);
      assert Count(ab, p) == (if p(a[0]) then 1 else 0) + Count(a[1..] + b, p);
    }
  }

  function Replies(outs: seq<Output>): nat {
    Count(outs, IsReply)
  }

  function AgentCalls(outs: seq<Output>): nat {
    Count(outs, IsAgentCall)
  }

  function CollaboratorCalls(outs: seq<Output>): nat {
    Count(outs, (o: Output) => o.Invoke?)
  }

  /** The status messages on screen after one output; a deletion attempt may fail, so it removes nothing. */
  function NextLive(live: set<nat>, o: Output): set<nat> {
    match o
    case StatusSent(k, _) => live + {k}
    case StatusDeleted(k) => live - {k}
    case _ => live
  }

  /** The status messages still on screen after `outs`, starting from `live`. */
  function LiveAfter(live: set<nat>, outs: seq<Output>): set<nat>
    decreases |outs|
  {
    if outs == [] then live else LiveAfter(NextLive(live, outs[0]), outs[1..])
  }

  /** Status bookkeeping of one output in front of a list. */
  lemma LiveCons(live: set<nat>, x: Output, rest: seq<Output>)
    ensures LiveAfter(live, [x] + rest) == LiveAfter(NextLive(live, x), rest)
  {
    assert ([x] + rest)[0] == x;
    assert ([x] + rest)[1..] == rest;
  }

  /** Starting from `live`, at most one status message is on screen after every prefix of `outs`. */
  predicate BoundedFrom(live: set<nat>, outs: seq<Output>) {
    forall n :: 0 <= n <= |outs| ==> |LiveAfter(live, outs[..n])| <= 1
  }

  /** At most one status message is on screen at any time during `outs`. */
  predicate AtMostOneLive(outs: seq<Output>) {
    BoundedFrom({}, outs)
  }

  /** The slots whose deletion `outs` attempted (errors swallowed). */
  function AttemptedSlots(outs: seq<Output>): set<nat> {
    set i | 0 <= i < |outs| && outs[i].StatusDeleteAttempted? :: outs[i].slot
  }

  /** One output in front keeps the bound when it keeps at most one message live. */
  lemma BoundedCons(live: set<nat>, x: Output, rest: seq<Output>)
    requires |live| <= 1
    requires BoundedFrom(NextLive(live, x), rest)
    ensures BoundedFrom(live, [x] + rest)
    ensures LiveAfter(live, [x] + rest) == LiveAfter(NextLive(live, x), rest)
  {
    var outs := [x] + rest;
    assert outs[1..] == rest;
    forall n | 0 <= n <= |outs|
      ensures |LiveAfter(live, outs[..n])| <= 1
    {
      if n > 0 {
        assert outs[..n][1..] == rest[..n - 1];
        assert outs[..n][0] == x;
        assert LiveAfter(live, outs[..n]) == LiveAfter(NextLive(live, x), rest[..n - 1]);
      } else {
        assert outs[..0] == [];
      }
    }
  }

  /** The empty tail keeps the bound exactly when the starting set does. */
  lemma BoundedNil(live: set<nat>)
    requires |live| <= 1
    ensures BoundedFrom(live, [])
    ensures LiveAfter(live, []) == live
  {
    var none: seq<Output> := [];
    assert none[..0] == none;
  }

  /** Counting an output in front of a list. */
  lemma CountCons(x: Output, rest: seq<Output>, p: Output -> bool)
    ensures Count([x] + rest, p) == (if p(x) then 1 else 0) + Count(rest, p)
  {
    assert ([x] + rest)[0] == x;
    assert ([x] + rest)[1..] == rest;
  }

  /** Attempted deletions of a list with one more output in front. */
  lemma AttemptedCons(x: Output, rest: seq<Output>)
    ensures AttemptedSlots([x] + rest) == (if x.StatusDeleteAttempted? then {x.slot} else {}) + AttemptedSlots(rest)
  {
    var outs := [x] + rest;
    forall k | k in AttemptedSlots(outs)
      ensures k in (if x.StatusDeleteAttempted? then {x.slot} else {}) + AttemptedSlots(rest)
    {
      var i :| 0 <= i < |outs| && outs[i].StatusDeleteAttempted? && outs[i].slot == k;
      if i > 0 {
        assert rest[i - 1] == outs[i];
      }
    }
    forall k | k in AttemptedSlots(rest)
      ensures k in AttemptedSlots(outs)
    {
      var i :| 0 <= i < |rest| && rest[i].StatusDeleteAttempted? && rest[i].slot == k;
      assert outs[i + 1] == rest[i];
    }
    if x.StatusDeleteAttempted? {
      assert outs[0] == x;
    }
  }
}
