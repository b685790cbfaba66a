/**
 * The legacy entry point (index.js) as a pure step function over an explicit
 * per-user store of `pendingMintImageId`. Text goes, in registration order, to
 * `/start`, `/help`, `/generate`, `/transparent`, `/myimages` and then the
 * text handler: a pending "Mint to Existing Collection" takes a base-58
 * address, keyword text goes to the agent, anything else is an image prompt.
 * Presses go to the first of `pump:`, `mint:`, `newcol:` and `existcol:` that
 * matches.
 */
module Legacy {
  import opened Basics
  import opened JsText
  import opened Telegram
  import opened Addresses
  import opened Prompts
  import opened ImageList
  import opened Effects
  import opened Handlers

  /** `ctx.session.pendingMintImageId` per user; a user without an entry has `null`. */
  type Store = map<UserId, string>

  function PendingOf(store: Store, user: UserId): Option<string> {
    if user in store then Some(store[user]) else None
  }

  /** A handler's effect on the pending image id of the user it serves, and its outputs. */
  datatype Handled = Handled(pending: Option<string>, outputs: seq<Output>)

  datatype StepResult = StepResult(store: Store, outputs: seq<Output>)

  /** `if (ctx.session && ctx.session.pendingMintImageId)`: set and non-empty. */
  predicate Armed(pending: Option<string>) {
    pending.Some? && pending.value != []
  }

  // ------------------------------------------------------------- commands

  const LegacyCommands: seq<string> := ["/generate", "/transparent", "/myimages", "/help"]

  const WelcomeLead: string :=
    "Welcome to Solana Image "
    + "Generation Bot! I can generate "
    + "images and help with Solana "
    + "blockchain.\n\n"
  const WelcomeCommands: string :=
    "Commands:\n/generate [prompt] - "
    + "Generate an image\n"
    + "/transparent [prompt] - "
    + "Generate an image with "
    + "transparent background\n"
    + "/myimages - View your stored " + "images\n/help - See all commands\n" + "\n"
  const WelcomeClose: string := "For Solana help, just ask me " + "anything about Solana!"

  /** `/start`: publish the command list and send the welcome text, without a keyboard. */
  function LegacyStart(): seq<Output> {
    [SetCommands(LegacyCommands), Reply(WelcomeLead + WelcomeCommands + WelcomeClose, [])]
  }

  const LegacyHelpText: string :=
    "\nAvailable commands:\n" + "/generate [prompt] - Generate " + "an image from your prompt\n"
    + "/transparent [prompt] - " + "Generate an image with " + "transparent background\n"
    + "/myimages - Show your "
    + "previously generated images\n"
    + "Example: /generate A cat "
    + "sitting on a beach at sunset\n\n"
    + "You can also ask me about " + "Solana blockchain or NFTs!\n  "

  const GenerateUsage: string := "Please provide a prompt. " + "Example: /generate A beautiful " + "sunset"
  const TransparentUsage: string :=
    "Please provide a prompt. "
    + "Example: /transparent A cute "
    + "cartoon dog"
  const LegacyTransparentStatus: string := "\U{1F3A8} Generating transparent image, " + "please wait..."
  const TransparentCaptionLead: string := "Transparent image generated: "

  /** `/generate [prompt]` and `/transparent [prompt]`: the usage reply for an empty prompt, otherwise generation. */
  function GenerateCommand(text: string, transparent: bool, o: Oracle): seq<Output> {
    var prompt := CommandArgument(text, if transparent then "transparent" else "generate");
    if prompt == [] then [Reply(if transparent then TransparentUsage else GenerateUsage, [])]
    else if transparent then Generation(prompt, true, LegacyTransparentStatus, PumpMintPhoto(TransparentCaptionLead), o)
    else Generation(prompt, false, StandardStatus, PumpMintPhoto(ImageCaptionLead), o)
  }

  /** The opening of the legacy handlers' error replies. */
  const Apology: string := "Sorry, "
  const FetchImagesError: string :=
    Apology
    + "there was an error fetching "
    + "your images. Please try again "
    + "later."
  const LegacyNoImagesText: string :=
    "You have no stored images yet. "
    + "Use /generate or /transparent "
    + "to create some!"

  /** `/myimages`: the listing without a keyboard; a thrown fetch is caught by the handler itself. */
  function MyImages(rows: Rows): seq<Output> {
    match rows
    case FetchFails => [Invoke(FetchUserImages), Reply(FetchImagesError, [])]
    case NullRows => [Invoke(FetchUserImages), Reply(LegacyNoImagesText, [])]
    case Rows(images) =>
      if images == [] then [Invoke(FetchUserImages), Reply(LegacyNoImagesText, [])]
      else [Invoke(FetchUserImages), Reply(ListMessage(images), [])]
  }

  // ----------------------------------------------------------- agent tasks

  /** The `pump:` agent prompt for the image the by-id lookup found; `None` when the lookup failed. */
  function PumpRequest(lookup: Option<ImageRecord>): (r: Option<string>)
    ensures r.Some? <==> lookup.Some?
    ensures r.Some? ==> OccursAt(r.value, lookup.value.prompt, |PumpLead|)
  {
    match lookup
    case None => None
    case Some(image) => Some(PumpPrompt(image.prompt, image.url))
  }

  /** The `newcol:` agent prompt for the image the lookup found. */
  function NewCollectionRequest(lookup: Option<ImageRecord>): (r: Option<string>)
    ensures r.Some? <==> lookup.Some?
    ensures r.Some? ==> OccursAt(r.value, lookup.value.prompt, |NewCollectionLead|)
  {
    match lookup
    case None => None
    case Some(image) => Some(NewCollectionPrompt(image.prompt, image.url))
  }

  /** The agent prompt minting the image the lookup found into the collection at `address`. */
  function MintRequest(address: string, lookup: Option<ImageRecord>): (r: Option<string>)
    ensures r.Some? <==> lookup.Some?
    ensures r.Some? ==> OccursAt(r.value, address + LegacyMintNameLine, |LegacyMintLead|)
    ensures r.Some? ==>
      OccursAt(r.value, lookup.value.prompt + LegacyMintUrlLine, |LegacyMintLead| + |address| + |LegacyMintNameLine|)
    ensures r.Some? ==>
      OccursAt(r.value, lookup.value.url,
               |LegacyMintLead| + |address| + |LegacyMintNameLine| + |lookup.value.prompt| + |LegacyMintUrlLine|)
  {
    match lookup
    case None => None
    case Some(image) => Some(LegacyMintPrompt(address, image.prompt, image.url))
  }

  const ImageDataMissing: string := Apology + "I could not find the image " + "data. Please try again."

  /**
   * Announce the task, look the image up by id (`.single()`), and hand the
   * agent the prompt built from the row found, sending its answer as
   * Markdown. A failed lookup is answered without asking the agent.
   */
  function ImageTask(announce: string, imageId: string, request: Option<string>, o: Oracle): seq<Output> {
    [Reply(announce, []), Invoke(FetchImageById(imageId))] + TaskAnswer(request, o.agentReply)
  }

  /** What follows the lookup: the failure reply, or the typing action, the agent call and its Markdown answer. */
  function TaskAnswer(request: Option<string>, reply: string): seq<Output> {
    match request
    case None => [Reply(ImageDataMissing, [])]
    case Some(prompt) => AgentAnswer(prompt, reply)
  }

  function AgentAnswer(prompt: string, reply: string): seq<Output> {
    [ChatAction, Invoke(Agent(prompt)), MarkdownReply(reply)]
  }

  // ------------------------------------------------------------------ text

  /** `text.toLowerCase().includes(...)` for one of the six Solana keywords. */
  predicate MentionsKeyword(text: string) {
    var lower := AsciiLowerString(text);
    Contains(lower, "solana") || Contains(lower, "blockchain") || Contains(lower, "crypto")
    || Contains(lower, "nft") || Contains(lower, "wallet") || Contains(lower, "token")
  }

  /** Text that is not a pending address: keyword text goes to the agent, anything else is an image prompt. */
  function NormalText(text: string, o: Oracle): seq<Output> {
    if MentionsKeyword(text) then [ChatAction, Invoke(Agent(text)), Reply(o.agentReply, [])]
    else Generation(text, false, StandardStatus, PumpMintPhoto(ImageCaptionLead), o)
  }

  const MintingText: string :=
    "\U{1F528} Minting your NFT to the "
    + "specified collection. Please "
    + "wait..."

  /**
   * The text handler. Slash text is ignored. An armed pending id is cleared
   * first; a trimmed base-58 address then mints into that collection, while
   * anything else falls through to normal processing of the untrimmed text.
   */
  function TextHandler(pending: Option<string>, text: string, o: Oracle): Handled {
    if StartsWith(text, "/") then Handled(pending, [])
    else if Armed(pending) then
      var address := Trim(text);
      if IsBase58Address(address) then Handled(None, ImageTask(MintingText, pending.value, MintRequest(address, o.lookup), o))
      else Handled(None, NormalText(text, o))
    else Handled(pending, NormalText(text, o))
  }

  function OnText(pending: Option<string>, text: string, o: Oracle): Handled {
    var command := CommandOf(text);
    if command == Some("start") then Handled(pending, LegacyStart())
    else if command == Some("help") then Handled(pending, [Reply(LegacyHelpText, [])])
    else if command == Some("generate") then Handled(pending, GenerateCommand(text, false, o))
    else if command == Some("transparent") then Handled(pending, GenerateCommand(text, true, o))
    else if command == Some("myimages") then Handled(pending, MyImages(o.images))
    else TextHandler(pending, text, o)
  }

  // --------------------------------------------------------------- presses

  const NewCollectionPrefix: string := "newcol:"
  const ExistingCollectionPrefix: string := "existcol:"

  datatype PressRoute =
    | PumpRoute(imageId: string)
    | MintRoute(imageId: string)
    | NewCollectionRoute(imageId: string)
    | ExistingCollectionRoute(imageId: string)
    | NoRoute

  /** The first of `/pump:(.+)/`, `/mint:(.+)/`, `/newcol:(.+)/`, `/existcol:(.+)/` that matches. */
  function RouteOf(data: string): PressRoute {
    if Capture(data, PumpPrefix).Some? then PumpRoute(Capture(data, PumpPrefix).value)
    else if Capture(data, MintPrefix).Some? then MintRoute(Capture(data, MintPrefix).value)
    else if Capture(data, NewCollectionPrefix).Some? then NewCollectionRoute(Capture(data, NewCollectionPrefix).value)
    else if Capture(data, ExistingCollectionPrefix).Some? then ExistingCollectionRoute(Capture(data, ExistingCollectionPrefix).value)
    else NoRoute
  }

  const PumpText: string :=
    "\U{1F680} Preparing to launch your "
    + "token on Pump. Please wait "
    + "while I set this up..."
  const NftOptionsText: string := "\U{1F5BC}\U{FE0F} NFT Options"
  const NewCollectionText: string :=
    "\U{1F528} Creating a new collection and "
    + "minting your NFT. Please wait..."
  const AddressRequestText: string :=
    "Please send me the collection "
    + "address where you want to mint "
    + "your NFT."

  /** The two choices `mint:` offers, one per row, each carrying the image id. */
  function NftOptions(imageId: string): (k: Keyboard)
    ensures |k| == 2 && |k[0]| == 1 && |k[1]| == 1
  {
    [[Button("Create New Collection & Mint", NewCollectionPrefix + imageId)],
     [Button("Mint to Existing Collection", ExistingCollectionPrefix + imageId)]]
  }

  function OnPress(pending: Option<string>, data: string, o: Oracle): Handled {
    match RouteOf(data)
    case PumpRoute(id) => Handled(pending, ImageTask(PumpText, id, PumpRequest(o.lookup), o))
    case MintRoute(id) => Handled(pending, [Reply(NftOptionsText, NftOptions(id))])
    case NewCollectionRoute(id) => Handled(pending, ImageTask(NewCollectionText, id, NewCollectionRequest(o.lookup), o))
    case ExistingCollectionRoute(id) => Handled(Some(id), [Reply(AddressRequestText, [])])
    case NoRoute => Handled(pending, [])
  }

  // ------------------------------------------------------------------ step

  /** Store what a handler left as the user's pending id; `null` removes the entry. */
  function Commit(store: Store, user: UserId, h: Handled): (r: StepResult)
    ensures PendingOf(r.store, user) == h.pending && r.outputs == h.outputs
    ensures forall v :: v != user ==> PendingOf(r.store, v) == PendingOf(store, v)
    ensures r.store.Keys <= store.Keys + {user}
  {
    var next := if h.pending.Some? then store[user := h.pending.value] else store - {user};
    StepResult(next, h.outputs)
  }

  function TextStep(store: Store, user: UserId, text: string, o: Oracle): StepResult {
    Commit(store, user, OnText(PendingOf(store, user), text, o))
  }

  function PressStep(store: Store, user: UserId, data: string, o: Oracle): StepResult {
    Commit(store, user, OnPress(PendingOf(store, user), data, o))
  }

  /** One update of the legacy entry point against a store that persists across updates. */
  function LegacyStep(store: Store, u: Update, o: Oracle): (r: StepResult)
    ensures forall v :: v != u.User() ==> PendingOf(r.store, v) == PendingOf(store, v)
    ensures r.store.Keys <= store.Keys + {u.User()}
  {
    match u
    case Text(user, text) => TextStep(store, user, text, o)
    case Press(user, data) => PressStep(store, user, data, o)
  }

  // --------------------------------------------------------------- routing

  /** Every button the legacy bot builds reaches the handler it was built for, with the image id it carries. */
  lemma LegacyButtonsRouteHome(id: string)
    requires IsPlainId(id)
    ensures RouteOf(PumpPrefix + id) == PumpRoute(id)
    ensures RouteOf(MintPrefix + id) == MintRoute(id)
    ensures RouteOf(NewCollectionPrefix + id) == NewCollectionRoute(id)
    ensures RouteOf(ExistingCollectionPrefix + id) == ExistingCollectionRoute(id)
  {
    assert IsHandlerPrefix(PumpPrefix) && IsHandlerPrefix(MintPrefix);
    assert IsHandlerPrefix(NewCollectionPrefix) && IsHandlerPrefix(ExistingCollectionPrefix);
    CaptureOwnPrefix(PumpPrefix, id);
    CaptureOwnPrefix(MintPrefix, id);
    CaptureOwnPrefix(NewCollectionPrefix, id);
    CaptureOwnPrefix(ExistingCollectionPrefix, id);
    assert NewCollectionPrefix[2] == 'w' && ExistingCollectionPrefix[4] == 't' && ExistingCollectionPrefix[2] == 'i';
    CaptureMissesOther(MintPrefix, id, PumpPrefix);
    CaptureMissesOther(NewCollectionPrefix, id, PumpPrefix);
    CaptureMissesOther(NewCollectionPrefix, id, MintPrefix);
    CaptureMissesOther(ExistingCollectionPrefix, id, PumpPrefix);
    CaptureMissesOther(ExistingCollectionPrefix, id, MintPrefix);
    CaptureMissesOther(ExistingCollectionPrefix, id, NewCollectionPrefix);
  }

  /**
   * The buttons under a generated image reach `pump:` and `mint:` with the
   * stored image's id, and the two choices `mint:` offers reach `newcol:` and
   * `existcol:` with that same id.
   */
  lemma ImageButtonsChain(lead: string, image: StoredImage)
    requires IsPlainId(image.id)
    ensures RouteOf(PhotoButtons(PumpMintPhoto(lead), image)[0][0].data) == PumpRoute(image.id)
    ensures RouteOf(PhotoButtons(PumpMintPhoto(lead), image)[0][1].data) == MintRoute(image.id)
    ensures RouteOf(NftOptions(image.id)[0][0].data) == NewCollectionRoute(image.id)
    ensures RouteOf(NftOptions(image.id)[1][0].data) == ExistingCollectionRoute(image.id)
  {
    LegacyButtonsRouteHome(image.id);
  }

  // ---------------------------------------------------------- agent tasks

  /**
   * An image task announces itself, looks the image up once and answers once
   * more: with the lookup failure, or with the agent's Markdown answer to the
   * task's prompt for the image found. The agent is asked exactly when the
   * lookup succeeds.
   */
  lemma ImageTaskAnswers(announce: string, imageId: string, request: Option<string>, o: Oracle)
    ensures var outs := ImageTask(announce, imageId, request, o);
      && |outs| >= 3
      && outs[..2] == [Reply(announce, []), Invoke(FetchImageById(imageId))]
      && Replies(outs) == 2
      && AgentCalls(outs) == (if request.Some? then 1 else 0)
      && (request.None? ==> |outs| == 3 && outs[2] == Reply(ImageDataMissing, []))
      && (request.Some? ==> |outs| == 5 && outs[2] == ChatAction && outs[3] == Invoke(Agent(request.value))
                            && outs[4] == MarkdownReply(o.agentReply))
  {
    var head := [Reply(announce, []), Invoke(FetchImageById(imageId))];
    var tail := TaskAnswer(request, o.agentReply);
    CountConcat(head, tail, IsReply);
    CountConcat(head, tail, IsAgentCall);
    CountTwo(head, IsReply);
    CountTwo(head, IsAgentCall);
    TaskAnswerCounts(request, o.agentReply);
  }

  lemma TaskAnswerCounts(request: Option<string>, reply: string)
    ensures Replies(TaskAnswer(request, reply)) == 1
    ensures AgentCalls(TaskAnswer(request, reply)) == (if request.Some? then 1 else 0)
  {
    match request
    case None =>
      CountTwo(TaskAnswer(request, reply), IsReply);
      CountTwo(TaskAnswer(request, reply), IsAgentCall);
    case Some(prompt) =>
      AgentAnswerCounts(prompt, reply);
  }

  lemma AgentAnswerCounts(prompt: string, reply: string)
    ensures Replies(AgentAnswer(prompt, reply)) == 1 && AgentCalls(AgentAnswer(prompt, reply)) == 1
  {
    CountThree(AgentAnswer(prompt, reply), IsReply);
    CountThree(AgentAnswer(prompt, reply), IsAgentCall);
  }

  // -------------------------------------------------------------- presses

  /** A handler that leaves the pending id as it found it leaves the store as it was. */
  lemma CommitUnchanged(store: Store, user: UserId, outs: seq<Output>)
    ensures Commit(store, user, Handled(PendingOf(store, user), outs)) == StepResult(store, outs)
  {
    if user !in store {
      assert store - {user} == store;
    }
  }

  /**
   * "Launch on Pump" and "Create New Collection & Mint" run their agent task
   * on the image id they carry, and "Mint to Collection" offers the two
   * collection choices for that id; none of them touches the pending id.
   */
  lemma ImageButtonsPressed(store: Store, user: UserId, id: string, o: Oracle)
    requires IsPlainId(id)
    ensures PressStep(store, user, PumpPrefix + id, o) == StepResult(store, ImageTask(PumpText, id, PumpRequest(o.lookup), o))
    ensures PressStep(store, user, MintPrefix + id, o) == StepResult(store, [Reply(NftOptionsText, NftOptions(id))])
    ensures PressStep(store, user, NewCollectionPrefix + id, o) == StepResult(store, ImageTask(NewCollectionText, id, NewCollectionRequest(o.lookup), o))
  {
    LegacyButtonsRouteHome(id);
    var p := PendingOf(store, user);
    CommitUnchanged(store, user, ImageTask(PumpText, id, PumpRequest(o.lookup), o));
    CommitUnchanged(store, user, [Reply(NftOptionsText, NftOptions(id))]);
    CommitUnchanged(store, user, ImageTask(NewCollectionText, id, NewCollectionRequest(o.lookup), o));
  }

  /** "Mint to Existing Collection" records the image id as the user's pending one, replacing any earlier, and asks for the address without calling a collaborator. */
  lemma ExistingCollectionArms(store: Store, user: UserId, id: string, o: Oracle)
    requires IsPlainId(id)
    ensures var r := PressStep(store, user, ExistingCollectionPrefix + id, o);
      && PendingOf(r.store, user) == Some(id)
      && r.outputs == [Reply(AddressRequestText, [])]
      && CollaboratorCalls(r.outputs) == 0
  {
    LegacyButtonsRouteHome(id);
    CountTwo([Reply(AddressRequestText, [])], (x: Output) => x.Invoke?);
  }

  // ----------------------------------------------------------------- text

  /** A trimmed base-58 address cannot come from slash text: the `/` would survive the trim. */
  lemma Base58TextIsNoSlash(text: string)
    requires IsBase58Address(Trim(text))
    ensures !StartsWith(text, "/") && CommandOf(text) == None
  {
    if text != [] && text[0] == '/' {
      TrimKeepsFirst(text);
    }
  }

  /**
   * With an image pending, a message whose trimmed form is a base-58 address
   * clears the pending id and runs the mint task for that image and exactly
   * that address.
   */
  lemma ValidAddressMints(store: Store, user: UserId, text: string, o: Oracle)
    requires Armed(PendingOf(store, user))
    requires IsBase58Address(Trim(text))
    ensures var r := TextStep(store, user, text, o);
      && PendingOf(r.store, user) == None
      && r.outputs == ImageTask(MintingText, PendingOf(store, user).value, MintRequest(Trim(text), o.lookup), o)
  {
    Base58TextIsNoSlash(text);
  }

  /**
   * With an image pending, any other plain message still clears the pending
   * id, and is then processed as if nothing had been pending.
   */
  lemma InvalidAddressFallsThrough(store: Store, user: UserId, text: string, o: Oracle)
    requires Armed(PendingOf(store, user))
    requires !StartsWith(text, "/") && !IsBase58Address(Trim(text))
    ensures var r := TextStep(store, user, text, o);
      && PendingOf(r.store, user) == None
      && r.outputs == NormalText(text, o)
  {
    assert CommandOf(text) == None;
  }

  /** Slash text that is none of the five commands is ignored, and a pending id survives it. */
  lemma SlashTextKeepsPending(store: Store, user: UserId, text: string, o: Oracle)
    requires StartsWith(text, "/")
    requires CommandOf(text) !in {Some("start"), Some("help"), Some("generate"), Some("transparent"), Some("myimages")}
    ensures TextStep(store, user, text, o) == StepResult(store, [])
  {
    CommitUnchanged(store, user, []);
  }

  /** Plain text from a user with nothing pending is processed normally, and the store is left as it was. */
  lemma IdleTextIsNormal(store: Store, user: UserId, text: string, o: Oracle)
    requires !Armed(PendingOf(store, user))
    requires !StartsWith(text, "/")
    ensures TextStep(store, user, text, o) == StepResult(store, NormalText(text, o))
  {
    assert CommandOf(text) == None;
    CommitUnchanged(store, user, NormalText(text, o));
  }

  /**
   * Normal processing asks the agent about the text itself exactly when it
   * mentions one of the keywords, and otherwise takes the text as an image
   * prompt: the image model is asked for it exactly when no keyword occurs
   * and the status message went out. Nothing else is called.
   */
  lemma NormalTextIff(text: string, o: Oracle)
    ensures Invoke(Agent(text)) in NormalText(text, o) <==> MentionsKeyword(text)
    ensures Invoke(GenerateImage(text, false)) in NormalText(text, o)
      <==> !MentionsKeyword(text) && o.fault != StatusReplyFails(1)
    ensures forall x :: x in NormalText(text, o) && x.Invoke? ==> x == Invoke(Agent(text)) || x == Invoke(GenerateImage(text, false))
  {
    var outs := NormalText(text, o);
    if MentionsKeyword(text) {
      assert outs[1] == Invoke(Agent(text));
    } else {
      GenerationOutcome(text, false, StandardStatus, PumpMintPhoto(ImageCaptionLead), o);
      if o.fault != StatusReplyFails(1) {
        assert outs[1] == Invoke(GenerateImage(text, false));
      }
    }
  }

  /** Lower-casing twice is lower-casing once. */
  lemma LowerIdempotent(text: string)
    ensures AsciiLowerString(AsciiLowerString(text)) == AsciiLowerString(text)
  {
  }

  /** The keyword test ignores ASCII case: a message and its lower-cased form are routed alike. */
  lemma KeywordTestIgnoresCase(text: string)
    ensures MentionsKeyword(AsciiLowerString(text)) <==> MentionsKeyword(text)
  {
    LowerIdempotent(text);
  }

  /**
   * `/generate` and `/transparent` answer with their own usage text when the
   * rest of the message is blank, and otherwise generate the trimmed rest,
   * with their own status text, background and caption; the store is left as
   * it was.
   */
  lemma GenerateCommands(store: Store, user: UserId, text: string, transparent: bool, o: Oracle)
    requires CommandOf(text) == Some(if transparent then "transparent" else "generate")
    ensures var name := if transparent then "transparent" else "generate";
      var rest := text[1 + |name|..];
      var r := TextStep(store, user, text, o);
      && r.store == store
      && (AllWhitespace(rest) ==> r.outputs == [Reply(if transparent then TransparentUsage else GenerateUsage, [])])
      && (!AllWhitespace(rest) && transparent ==>
            r.outputs == Generation(Trim(rest), true, LegacyTransparentStatus, PumpMintPhoto(TransparentCaptionLead), o))
      && (!AllWhitespace(rest) && !transparent ==>
            r.outputs == Generation(Trim(rest), false, StandardStatus, PumpMintPhoto(ImageCaptionLead), o))
  {
    GenerateCommandStep(store, user, text, transparent, o);
    GenerateArgument(text, transparent, o);
  }

  lemma GenerateCommandStep(store: Store, user: UserId, text: string, transparent: bool, o: Oracle)
    requires CommandOf(text) == Some(if transparent then "transparent" else "generate")
    ensures TextStep(store, user, text, o) == StepResult(store, GenerateCommand(text, transparent, o))
  {
    GenerateRoutes(PendingOf(store, user), text, transparent, o);
    CommitUnchanged(store, user, GenerateCommand(text, transparent, o));
  }

  /** `/generate` and `/transparent` reach their own command handler, whatever is pending. */
  lemma GenerateRoutes(pending: Option<string>, text: string, transparent: bool, o: Oracle)
    requires CommandOf(text) == Some(if transparent then "transparent" else "generate")
    ensures OnText(pending, text, o) == Handled(pending, GenerateCommand(text, transparent, o))
  {
    if transparent {
      assert CommandOf(text) == Some("transparent");
    } else {
      assert CommandOf(text) == Some("generate");
    }
  }

  lemma GenerateArgument(text: string, transparent: bool, o: Oracle)
    requires CommandOf(text) == Some(if transparent then "transparent" else "generate")
    ensures var name := if transparent then "transparent" else "generate";
      var rest := text[1 + |name|..];
      && (AllWhitespace(rest) ==> GenerateCommand(text, transparent, o) == [Reply(if transparent then TransparentUsage else GenerateUsage, [])])
      && (!AllWhitespace(rest) && transparent ==>
            GenerateCommand(text, transparent, o) == Generation(Trim(rest), true, LegacyTransparentStatus, PumpMintPhoto(TransparentCaptionLead), o))
      && (!AllWhitespace(rest) && !transparent ==>
            GenerateCommand(text, transparent, o) == Generation(Trim(rest), false, StandardStatus, PumpMintPhoto(ImageCaptionLead), o))
  {
    CommandArgumentOfCommand(text, if transparent then "transparent" else "generate");
  }

  /**
   * `/myimages` fetches once and answers once: the handler's own error text
   * exactly when the fetch throws, and a listing exactly when images exist,
   * the same listing `view_images` sends in the other entry points, here
   * without a keyboard.
   */
  lemma MyImagesAnswer(rows: Rows)
    ensures |MyImages(rows)| == 2 && MyImages(rows)[0] == Invoke(FetchUserImages)
    ensures Replies(MyImages(rows)) == 1
    ensures MyImages(rows)[1].text == FetchImagesError <==> rows.FetchFails?
    ensures StartsWith(MyImages(rows)[1].text, Header) <==> rows.Rows? && rows.images != []
    ensures rows.Rows? && rows.images != [] ==> MyImages(rows)[1] == Reply(ViewImages(rows)[1].text, [])
  {
    var outs := MyImages(rows);
    CountTwo(outs, IsReply);
    assert Header[0] == '\U{1F5BC}';
    if rows.Rows? && rows.images != [] {
      ListStartsWithHeader(rows.images);
      assert outs[1].text[0] == '\U{1F5BC}';
    } else if rows.FetchFails? {
      assert outs[1].text[0] == 'S';
    } else {
      assert outs[1].text[0] == 'Y';
    }
  }

  // ------------------------------------------------ session as written

  /** A text message as written: `ctx.session` is rebuilt empty for every update, so no id is ever pending. */
  function FreshTextStep(user: UserId, text: string, o: Oracle): (outs: seq<Output>)
    ensures outs == TextStep(map[], user, text, o).outputs
  {
    OnText(None, text, o).outputs
  }

  /** A callback press as written: the handler sees an empty session, and what it stores there is dropped. */
  function FreshPressStep(user: UserId, data: string, o: Oracle): (outs: seq<Output>)
    ensures outs == PressStep(map[], user, data, o).outputs
  {
    OnPress(None, data, o).outputs
  }

  /**
   * As written, "Mint to Existing Collection" cannot complete: the press asks
   * for an address, but the address the user then sends is processed as
   * ordinary text, and no agent call ever carries the mint prompt for it.
   */
  lemma AsWrittenAddressIsNotMinted(user: UserId, id: string, address: string, o1: Oracle, o2: Oracle)
    requires IsPlainId(id) && IsBase58Address(address)
    ensures FreshPressStep(user, ExistingCollectionPrefix + id, o1) == [Reply(AddressRequestText, [])]
    ensures FreshTextStep(user, address, o2) == NormalText(address, o2)
    ensures forall prompt, url :: Invoke(Agent(LegacyMintPrompt(address, prompt, url))) !in FreshTextStep(user, address, o2)
  {
    LegacyButtonsRouteHome(id);
    FreshAddressIsNormal(user, address, o2);
    NormalTextNeverMints(address, o2);
  }

  /** With nothing pending, an address is plain text. */
  lemma FreshAddressIsNormal(user: UserId, address: string, o: Oracle)
    requires IsBase58Address(address)
    ensures FreshTextStep(user, address, o) == NormalText(address, o)
  {
    assert IsBase58Char(address[0]);
  }

  /** Normal processing of a text never asks the agent to mint into the collection that text names. */
  lemma NormalTextNeverMints(address: string, o: Oracle)
    ensures forall prompt, url :: Invoke(Agent(LegacyMintPrompt(address, prompt, url))) !in NormalText(address, o)
  {
    NormalTextIff(address, o);
    forall prompt, url
      ensures Invoke(Agent(LegacyMintPrompt(address, prompt, url))) !in NormalText(address, o)
    {
      assert |LegacyMintPrompt(address, prompt, url)| > |address|;
    }
  }

  /**
   * With the pending id persisted per user, "Mint to Existing Collection"
   * completes: after the press, a base-58 address asks the agent to mint the
   * image found for that id into exactly that collection, and the pending id
   * is cleared.
   */
  lemma ExistingCollectionCompletes(store: Store, user: UserId, id: string, text: string, o1: Oracle, o2: Oracle)
    requires IsPlainId(id) && IsBase58Address(Trim(text))
    requires o2.lookup.Some?
    ensures var r1 := PressStep(store, user, ExistingCollectionPrefix + id, o1);
      var r2 := TextStep(r1.store, user, text, o2);
      var image := o2.lookup.value;
      && PendingOf(r2.store, user) == None
      && r2.outputs == [Reply(MintingText, []), Invoke(FetchImageById(id)), ChatAction,
                        Invoke(Agent(LegacyMintPrompt(Trim(text), image.prompt, image.url))), MarkdownReply(o2.agentReply)]
  {
    ExistingCollectionArms(store, user, id, o1);
    var r1 := PressStep(store, user, ExistingCollectionPrefix + id, o1);
    ValidAddressMints(r1.store, user, text, o2);
    FoundImageMints(id, Trim(text), o2);
  }

  /** A mint task whose lookup succeeds asks the agent to mint the image found into the given collection. */
  lemma FoundImageMints(id: string, address: string, o: Oracle)
    requires o.lookup.Some?
    ensures ImageTask(MintingText, id, MintRequest(address, o.lookup), o)
      == [Reply(MintingText, []), Invoke(FetchImageById(id)), ChatAction,
          Invoke(Agent(LegacyMintPrompt(address, o.lookup.value.prompt, o.lookup.value.url))), MarkdownReply(o.agentReply)]
  {
  }
}
