/**
 * The canonical entry point (src/index.ts) as a pure step function over an
 * explicit per-user session store. A session holds the pending
 * "mint to a specific collection" action and the last metadata URI uploaded
 * to Pinata. Text updates go, in registration order, to `/start`, `/gen`,
 * the pending-address continuation, the metadata-URI phrase and finally the
 * agent fallback; button presses go to the first matching `bot.action`.
 */
module Canonical {
  import opened Basics
  import opened JsText
  import opened Telegram
  import opened Addresses
  import opened Prompts
  import opened ImageList
  import opened Effects
  import opened Handlers

  /** What the next text message of a user is taken for. */
  datatype PendingAction = Idle | AwaitingCollectionAddress(imageId: string)

  datatype Session = Session(pending: PendingAction, lastMetadataUri: Option<string>)

  const FreshSession: Session := Session(Idle, None)

  type Store = map<UserId, Session>

  function SessionOf(store: Store, user: UserId): Session {
    if user in store then store[user] else FreshSession
  }

  /** A handler's effect on the session of the user it serves, and its outputs. */
  datatype Handled = Handled(session: Session, outputs: seq<Output>)

  datatype StepResult = StepResult(store: Store, outputs: seq<Output>)

  // ---------------------------------------------------------------- presses

  /** The `bot.action` a callback press reaches: the first registered one whose string or pattern matches. */
  datatype PressRoute =
    | MenuRoute(action: string)
    | GenRoute(capture: string, transparent: bool)
    | WalletRoute(action: string)
    | CreateCollectionRoute(imageId: string)
    | MintSpecificRoute(imageId: string)
    | CancelMintRoute
    | NoRoute

  function RouteOf(data: string): PressRoute {
    if data in MenuActions then MenuRoute(data)
    else if Capture(data, StandardPrefix).Some? then GenRoute(Capture(data, StandardPrefix).value, false)
    else if Capture(data, TransparentPrefix).Some? then GenRoute(Capture(data, TransparentPrefix).value, true)
    else if data in WalletActions then WalletRoute(data)
    else if Capture(data, CreateCollectionPrefix).Some? then CreateCollectionRoute(Capture(data, CreateCollectionPrefix).value)
    else if Capture(data, MintSpecificPrefix).Some? then MintSpecificRoute(Capture(data, MintSpecificPrefix).value)
    else if data == "cancel_mint_specific" then CancelMintRoute
    else NoRoute
  }

  /** A capture with another handler prefix misses data built on `p` when the two differ before their colon. */
  lemma OtherPrefixMisses(p: string, id: string, other: string)
    requires IsHandlerPrefix(p) && IsHandlerPrefix(other) && IsPlainId(id)
    requires |p| >= 2 && |other| >= 2 && p[|p| - 2] != other[|other| - 2]
    ensures Capture(p + id, other) == None
  {
    if |other| <= |p| {
      assert p[|p| - |other|..][|other| - 2] == p[|p| - 2];
    }
    CaptureOtherPrefix(p, id, other);
  }

  /**
   * Every button the bot builds reaches the handler it was built for: the
   * `/gen` buttons, whose payload is an encoded prompt, and the two buttons
   * under a generated image, whose payload is a stored image id.
   */
  lemma ButtonsRouteHome(id: string)
    requires IsPlainId(id)
    ensures RouteOf(StandardPrefix + id) == GenRoute(id, false)
    ensures RouteOf(TransparentPrefix + id) == GenRoute(id, true)
    ensures RouteOf(CreateCollectionPrefix + id) == CreateCollectionRoute(id)
    ensures RouteOf(MintSpecificPrefix + id) == MintSpecificRoute(id)
  {
    assert IsHandlerPrefix(StandardPrefix) && StandardPrefix[|StandardPrefix| - 2] == 'd';
    assert IsHandlerPrefix(TransparentPrefix) && TransparentPrefix[|TransparentPrefix| - 2] == 't';
    assert IsHandlerPrefix(CreateCollectionPrefix) && CreateCollectionPrefix[|CreateCollectionPrefix| - 2] == 'n';
    assert IsHandlerPrefix(MintSpecificPrefix) && MintSpecificPrefix[|MintSpecificPrefix| - 2] == 'c';
    assert StandardPrefix[0] == 'g' && CreateCollectionPrefix[0] == 'c' && MintSpecificPrefix[0] == 'm';
    PrefixedDataIsNotExact(StandardPrefix, id);
    PrefixedDataIsNotExact(TransparentPrefix, id);
    PrefixedDataIsNotExact(CreateCollectionPrefix, id);
    PrefixedDataIsNotExact(MintSpecificPrefix, id);
    CaptureOwnPrefix(StandardPrefix, id);
    CaptureOwnPrefix(TransparentPrefix, id);
    CaptureOwnPrefix(CreateCollectionPrefix, id);
    CaptureOwnPrefix(MintSpecificPrefix, id);
    OtherPrefixMisses(TransparentPrefix, id, StandardPrefix);
    OtherPrefixMisses(CreateCollectionPrefix, id, StandardPrefix);
    OtherPrefixMisses(CreateCollectionPrefix, id, TransparentPrefix);
    OtherPrefixMisses(MintSpecificPrefix, id, StandardPrefix);
    OtherPrefixMisses(MintSpecificPrefix, id, TransparentPrefix);
    OtherPrefixMisses(MintSpecificPrefix, id, CreateCollectionPrefix);
  }

  /** Colon-free data matches none of the `/prefix(.+)/` patterns: it reaches an exact-match action or nothing. */
  lemma ColonFreeRoutesExactly(data: string)
    requires forall i :: 0 <= i < |data| ==> data[i] != ':'
    ensures RouteOf(data) == (if data in MenuActions then MenuRoute(data)
                              else if data == "cancel_mint_specific" then CancelMintRoute
                              else NoRoute)
  {
    assert IsHandlerPrefix(StandardPrefix) && IsHandlerPrefix(TransparentPrefix);
    assert IsHandlerPrefix(CreateCollectionPrefix) && IsHandlerPrefix(MintSpecificPrefix);
    NoColonNoCapture(data, StandardPrefix);
    NoColonNoCapture(data, TransparentPrefix);
    NoColonNoCapture(data, CreateCollectionPrefix);
    NoColonNoCapture(data, MintSpecificPrefix);
    assert forall w | w in WalletActions :: w[6] == ':';
  }

  /** The data of the Cancel button reaches the cancel handler. */
  lemma CancelRoutesHome()
    ensures RouteOf("cancel_mint_specific") == CancelMintRoute
  {
    ColonFreeRoutesExactly("cancel_mint_specific");
  }

  const MintSpecificText: string :=
    "Please reply with the "
    + "collection address where you "
    + "want to mint this NFT."
  const CancelKeyboard: Keyboard := [[Button("Cancel", "cancel_mint_specific")]]
  const CancelledText: string := "Mint to specific collection " + "cancelled."

  function OnPress(s: Session, data: string, o: Oracle): Handled {
    match RouteOf(data)
    case MenuRoute(action) => Handled(s, MenuPressed(action, o))
    case GenRoute(capture, transparent) => Handled(s, GenPressed(capture, transparent, LinkedPhoto, o))
    case WalletRoute(action) => Handled(s, WalletAction(action))
    case CreateCollectionRoute(id) => CreateCollection(s, id, o)
    case MintSpecificRoute(id) => Handled(s.(pending := AwaitingCollectionAddress(id)), [Reply(MintSpecificText, CancelKeyboard)])
    case CancelMintRoute => Handled(s.(pending := Idle), [Reply(CancelledText, BackToMenu)])
    case NoRoute => Handled(s, [])
  }

  // ------------------------------------------------------ create_collection

  const CollectionError: string :=
    "Sorry, there was an error "
    + "creating the NFT collection. "
    + "Please try again later."
  const UploadingImageText: string := "\U{1F4E4} Uploading image to Pinata..."
  const UploadingMetadataText: string := "\U{1F4DD} Uploading metadata to " + "Pinata..."
  const CreatingText: string :=
    "\U{1F680} Creating NFT Collection on "
    + "Solana using your metadata "
    + "URI..."

  /** The `catch` block: try to delete the status message last sent, if any, then the one error reply. */
  function Abort(status: Option<nat>): seq<Output> {
    (if status.Some? then [StatusDeleteAttempted(status.value)] else []) + [Reply(CollectionError, BackToMenu)]
  }

  /**
   * `create_collection:<id>`: find the image among the user's images, pin it,
   * pin its metadata (remembering the metadata URI in the session), ask the
   * agent to create the collection, and answer with the agent's reply. Each of
   * the three steps is announced by a status message that is deleted before
   * the next one is sent.
   */
  function CreateCollection(s: Session, imageId: string, o: Oracle): Handled {
    var fetch := [Invoke(FetchUserImages)];
    match o.images
    case FetchFails => Handled(s, fetch + Abort(None))
    case NullRows => Handled(s, fetch + Abort(None))
    case Rows(images) =>
      match FindImage(images, imageId)
      case None => Handled(s, fetch + [Reply("Image not found.", BackToMenu)])
      case Some(image) =>
        var h := PinImage(s, image, o);
        Handled(h.session, fetch + h.outputs)
  }

  /**
   * One announced step of the handler: send status message `k`, make `call`,
   * and unless that fails (`broken`) or deleting the message fails, delete it
   * and go on with `next`. A failure to send the status lands in the `catch`
   * block with the previous status message, `previous`, still recorded.
   */
  function Announce(k: nat, status: string, call: Output, previous: Option<nat>, broken: bool, next: seq<Output>, o: Oracle): seq<Output> {
    if o.fault == StatusReplyFails(k) then Abort(previous)
    else [StatusSent(k, status), call] + (if broken || o.fault == DeleteFails(k) then Abort(Some(k)) else [StatusDeleted(k)] + next)
  }

  /** Step 1: announce, download and pin the image. */
  function PinImage(s: Session, image: ImageRecord, o: Oracle): Handled {
    var call := Invoke(UploadImage(image.url));
    match o.pinnedImage
    case None => Handled(s, Announce(1, UploadingImageText, call, None, true, [], o))
    case Some(hash) =>
      var h := if o.fault == StatusReplyFails(1) || o.fault == DeleteFails(1) then Handled(s, [])
               else PinMetadata(s, image, PinataUrl(hash), o);
      Handled(h.session, Announce(1, UploadingImageText, call, None, false, h.outputs, o))
  }

  /** Step 2: announce and pin the metadata, then remember its URI. */
  function PinMetadata(s: Session, image: ImageRecord, imageUrl: string, o: Oracle): Handled {
    var call := Invoke(UploadMetadata(CollectionMetadata(image.prompt, imageUrl)));
    if o.fault == StatusReplyFails(2) then Handled(s, Abort(Some(1)))
    else
      match o.pinnedMetadata
      case None => Handled(s, Announce(2, UploadingMetadataText, call, Some(1), true, [], o))
      case Some(hash) =>
        var uri := PinataUrl(hash);
        Handled(s.(lastMetadataUri := Some(uri)), Announce(2, UploadingMetadataText, call, Some(1), false, CreateOnChain(uri, image.prompt, o), o))
  }

  /** Step 3: announce, ask the agent to create the collection, and answer with its reply. */
  function CreateOnChain(uri: string, prompt: string, o: Oracle): seq<Output> {
    var answer := if o.fault == FinalReplyFails then Abort(Some(3)) else [Reply(o.agentReply, BackToMenu)];
    Announce(3, CreatingText, Invoke(Agent(CollectionAgentPrompt(uri, prompt))), Some(2), false, answer, o)
  }

  predicate Step3Fails(o: Oracle) {
    o.fault == StatusReplyFails(3) || o.fault == DeleteFails(3) || o.fault == FinalReplyFails
  }

  predicate Step2Fails(o: Oracle) {
    o.fault == StatusReplyFails(2) || o.pinnedMetadata.None? || o.fault == DeleteFails(2) || Step3Fails(o)
  }

  /** Some step of a collection creation for a found image fails. */
  predicate CollectionFails(o: Oracle) {
    o.fault == StatusReplyFails(1) || o.pinnedImage.None? || o.fault == DeleteFails(1) || Step2Fails(o)
  }

  /**
   * How the outputs from some point of the handler on behave, with `live` on
   * screen at that point: never two status messages at once, exactly one
   * reply; on failure the reply is the error reply and every status message
   * still on screen is one whose deletion was attempted; on success nothing
   * is left on screen and no deletion was merely attempted.
   */
  predicate Closes(live: set<nat>, outs: seq<Output>, failed: bool) {
    && BoundedFrom(live, outs)
    && Replies(outs) == 1
    && (failed ==> LiveAfter(live, outs) <= AttemptedSlots(outs) && outs[|outs| - 1] == Reply(CollectionError, BackToMenu))
    && (!failed ==> LiveAfter(live, outs) == {} && AttemptedSlots(outs) == {})
  }

  lemma ClosesCons(live: set<nat>, x: Output, rest: seq<Output>, failed: bool)
    requires |live| <= 1 && !IsReply(x) && !x.StatusDeleteAttempted?
    requires Closes(NextLive(live, x), rest, failed)
    ensures Closes(live, [x] + rest, failed)
  {
    BoundedCons(live, x, rest);
    CountCons(x, rest, IsReply);
    AttemptedCons(x, rest);
    assert ([x] + rest)[|[x] + rest| - 1] == rest[|rest| - 1];
  }

  lemma ClosesTwo(live: set<nat>, x: Output, y: Output, rest: seq<Output>, failed: bool)
    requires |live| <= 1 && !IsReply(x) && !x.StatusDeleteAttempted? && !IsReply(y) && !y.StatusDeleteAttempted?
    requires |NextLive(live, x)| <= 1
    requires Closes(NextLive(NextLive(live, x), y), rest, failed)
    ensures Closes(live, [x, y] + rest, failed)
  {
    ClosesCons(NextLive(live, x), y, rest, failed);
    assert [x, y] + rest == [x] + ([y] + rest);
    ClosesCons(live, x, [y] + rest, failed);
  }

  /** The catch block closes the handler when the message on screen, if any, is the one it tries to delete. */
  lemma AbortCloses(live: set<nat>, status: Option<nat>)
    requires live <= (if status.Some? then {status.value} else {})
    ensures Closes(live, Abort(status), true)
  {
    var outs := Abort(status);
    var last := Reply(CollectionError, BackToMenu);
    assert |live| <= 1 by {
      if status.Some? && status.value in live {
        assert live == {status.value};
      } else {
        assert live == {};
      }
    }
    BoundedNil(live);
    BoundedCons(live, last, []);
    CountCons(last, [], IsReply);
    AttemptedCons(last, []);
    assert AttemptedSlots([]) == {};
    if status.Some? {
      var x := StatusDeleteAttempted(status.value);
      assert outs == [x] + [last];
      BoundedCons(live, x, [last]);
      CountCons(x, [last], IsReply);
      AttemptedCons(x, [last]);
    } else {
      assert outs == [last] + [];
    }
  }

  lemma AnswerCloses(reply: string)
    ensures Closes({}, [Reply(reply, BackToMenu)], false)
  {
    var last := Reply(reply, BackToMenu);
    BoundedNil({});
    BoundedCons({}, last, []);
    CountCons(last, [], IsReply);
    AttemptedCons(last, []);
    assert [last] == [last] + [];
    assert AttemptedSlots([]) == {};
  }

  /** An announced step closes the handler when what follows it does; it fails when it or what follows fails. */
  lemma AnnounceCloses(k: nat, status: string, call: Output, previous: Option<nat>, broken: bool, next: seq<Output>, nextFails: bool, o: Oracle)
    requires call.Invoke?
    requires o.fault != StatusReplyFails(k) && o.fault != DeleteFails(k) && !broken ==> Closes({}, next, nextFails)
    ensures Closes({}, Announce(k, status, call, previous, broken, next, o),
                   o.fault == StatusReplyFails(k) || broken || o.fault == DeleteFails(k) || nextFails)
  {
    if o.fault == StatusReplyFails(k) {
      AbortCloses({}, previous);
    } else {
      var sent := StatusSent(k, status);
      assert NextLive({}, sent) == {k};
      assert NextLive({k}, call) == {k};
      if broken || o.fault == DeleteFails(k) {
        AbortCloses({k}, Some(k));
        ClosesTwo({}, sent, call, Abort(Some(k)), true);
      } else {
        assert NextLive({k}, StatusDeleted(k)) == {};
        ClosesCons({k}, StatusDeleted(k), next, nextFails);
        ClosesTwo({}, sent, call, [StatusDeleted(k)] + next, nextFails);
      }
    }
  }

  lemma CreateOnChainCloses(uri: string, prompt: string, o: Oracle)
    ensures Closes({}, CreateOnChain(uri, prompt, o), Step3Fails(o))
  {
    if o.fault == FinalReplyFails {
      AbortCloses({}, Some(3));
    } else {
      AnswerCloses(o.agentReply);
    }
    var answer := if o.fault == FinalReplyFails then Abort(Some(3)) else [Reply(o.agentReply, BackToMenu)];
    AnnounceCloses(3, CreatingText, Invoke(Agent(CollectionAgentPrompt(uri, prompt))), Some(2), false, answer, o.fault == FinalReplyFails, o);
  }

  lemma PinMetadataCloses(s: Session, image: ImageRecord, imageUrl: string, o: Oracle)
    ensures Closes({}, PinMetadata(s, image, imageUrl, o).outputs, Step2Fails(o))
  {
    var call := Invoke(UploadMetadata(CollectionMetadata(image.prompt, imageUrl)));
    if o.fault == StatusReplyFails(2) {
      AbortCloses({}, Some(1));
    } else if o.pinnedMetadata.None? {
      AnnounceCloses(2, UploadingMetadataText, call, Some(1), true, [], false, o);
    } else {
      var uri := PinataUrl(o.pinnedMetadata.value);
      CreateOnChainCloses(uri, image.prompt, o);
      AnnounceCloses(2, UploadingMetadataText, call, Some(1), false, CreateOnChain(uri, image.prompt, o), Step3Fails(o), o);
    }
  }

  lemma PinImageCloses(s: Session, image: ImageRecord, o: Oracle)
    ensures Closes({}, PinImage(s, image, o).outputs, CollectionFails(o))
  {
    var call := Invoke(UploadImage(image.url));
    if o.pinnedImage.None? {
      AnnounceCloses(1, UploadingImageText, call, None, true, [], false, o);
    } else if o.fault == StatusReplyFails(1) || o.fault == DeleteFails(1) {
      AnnounceCloses(1, UploadingImageText, call, None, false, [], false, o);
    } else {
      var h := PinMetadata(s, image, PinataUrl(o.pinnedImage.value), o);
      PinMetadataCloses(s, image, PinataUrl(o.pinnedImage.value), o);
      AnnounceCloses(1, UploadingImageText, call, None, false, h.outputs, Step2Fails(o), o);
    }
  }

  /**
   * The status-message lifecycle of `create_collection` for an image the user
   * owns: at most one status message is on screen at any time; the handler
   * answers exactly once; on failure that answer is the error reply and every
   * status message left on screen is one the `catch` block tried to delete;
   * on success no status message is left on screen.
   */
  lemma CreateCollectionLifecycle(s: Session, imageId: string, o: Oracle)
    requires o.images.Rows? && FindImage(o.images.images, imageId).Some?
    ensures var outs := CreateCollection(s, imageId, o).outputs;
      && AtMostOneLive(outs)
      && Replies(outs) == 1
      && (CollectionFails(o) ==>
            outs[|outs| - 1] == Reply(CollectionError, BackToMenu) && LiveAfter({}, outs) <= AttemptedSlots(outs))
      && (!CollectionFails(o) ==> LiveAfter({}, outs) == {})
  {
    var image := FindImage(o.images.images, imageId).value;
    PinImageCloses(s, image, o);
    assert NextLive({}, Invoke(FetchUserImages)) == {};
    ClosesCons({}, Invoke(FetchUserImages), PinImage(s, image, o).outputs, CollectionFails(o));
  }

  /**
   * `create_collection` without the image: a failed or null fetch lands in the
   * `catch` block with no status message to delete, a missing image gets
   * "Image not found."; either way one reply, no agent call, no session change.
   */
  lemma CreateCollectionWithoutImage(s: Session, imageId: string, o: Oracle)
    requires !(o.images.Rows? && FindImage(o.images.images, imageId).Some?)
    ensures CreateCollection(s, imageId, o).session == s
    ensures CreateCollection(s, imageId, o).outputs
      == [Invoke(FetchUserImages), Reply(if o.images.Rows? then "Image not found." else CollectionError, BackToMenu)]
  {
  }

  /**
   * The session remembers the metadata URI exactly when the metadata upload
   * succeeded, and then it is the Pinata gateway URL of the pinned JSON; a
   * later failure does not undo it. The pending action is never touched.
   */
  lemma CreateCollectionRemembersUri(s: Session, imageId: string, o: Oracle)
    ensures var r := CreateCollection(s, imageId, o).session;
      && r.pending == s.pending
      && (r != s ==> r.lastMetadataUri.Some? && StartsWith(r.lastMetadataUri.value, GatewayPrefix))
      && (MetadataPinned(s, imageId, o) ==> r == s.(lastMetadataUri := Some(PinataUrl(o.pinnedMetadata.value))))
      && (!MetadataPinned(s, imageId, o) ==> r == s)
  {
  }

  /** The handler gets as far as pinning the metadata. */
  predicate MetadataPinned(s: Session, imageId: string, o: Oracle) {
    && o.images.Rows? && FindImage(o.images.images, imageId).Some?
    && o.fault != StatusReplyFails(1) && o.pinnedImage.Some? && o.fault != DeleteFails(1)
    && o.fault != StatusReplyFails(2) && o.pinnedMetadata.Some?
  }

  /**
   * What is pinned and asked for: the metadata names the collection after the
   * image prompt and points at the pinned image, and the agent is asked once,
   * to create the collection from the pinned metadata URI.
   */
  lemma CreateCollectionRequests(s: Session, imageId: string, o: Oracle)
    requires MetadataPinned(s, imageId, o)
    ensures var image := FindImage(o.images.images, imageId).value;
      var meta := CollectionMetadata(image.prompt, PinataUrl(o.pinnedImage.value));
      var outs := CreateCollection(s, imageId, o).outputs;
      && outs[5] == Invoke(UploadMetadata(meta))
      && meta.name == meta.symbol == meta.description == image.prompt
      && (o.fault != DeleteFails(2) && o.fault != StatusReplyFails(3) ==>
            outs[8] == Invoke(Agent(CollectionAgentPrompt(PinataUrl(o.pinnedMetadata.value), image.prompt))))
  {
  }

  // ------------------------------------------------------------------ text

  const InvalidAddressText: string :=
    "That doesn't look like a valid "
    + "collection address. Please try "
    + "again or press Cancel."
  const NoUriText: string :=
    "No metadata URI found from "
    + "previous message. Please create "
    + "NFT metadata first."

  /** `/using the metadata ?\/ ?uri from previous message/i`, spelled out as its four literal forms. */
  const MetadataPhrases: seq<string> := [
    "using the metadata/uri from " + "previous message",
    "using the metadata /uri from " + "previous message",
    "using the metadata/ uri from " + "previous message",
    "using the metadata / uri from " + "previous message"
  ]

  predicate MetadataPhrase(text: string) {
    ContainsFolded(text, MetadataPhrases[0]) || ContainsFolded(text, MetadataPhrases[1])
    || ContainsFolded(text, MetadataPhrases[2]) || ContainsFolded(text, MetadataPhrases[3])
  }

  /**
   * The pending-address continuation: validate the trimmed text, find the
   * image, mint. A thrown fetch, a `null` result (`find` on `null` throws) and a
   * failed final reply reach `bot.catch`; the slot is cleared before that reply.
   */
  function Continuation(s: Session, text: string, o: Oracle): Handled
    requires s.pending.AwaitingCollectionAddress?
  {
    var address := Trim(text);
    if !IsWordAddress(address) then Handled(s, [Reply(InvalidAddressText, [])])
    else
      var fetch := [Invoke(FetchUserImages)];
      match o.images
      case FetchFails => Handled(s, fetch + [Reply(CatchReply, [])])
      case NullRows => Handled(s, fetch + [Reply(CatchReply, [])])
      case Rows(images) =>
        match FindImage(images, s.pending.imageId)
        case None => Handled(s.(pending := Idle), fetch + [Reply("Image not found.", BackToMenu)])
        case Some(image) =>
          var answer := if o.fault == FinalReplyFails then Reply(CatchReply, []) else Reply(o.agentReply, BackToMenu);
          Handled(s.(pending := Idle), fetch + [Invoke(Agent(MintPrompt(image.prompt, address, image.url))), answer])
  }

  /** The metadata-URI phrase: hand the remembered URI to the agent, or explain that there is none. */
  function MetadataReply(lastUri: Option<string>, o: Oracle): seq<Output> {
    if lastUri.Some? && lastUri.value != [] then
      [Invoke(Agent(MetadataUriAgentPrompt(lastUri.value))), Reply(o.agentReply, BackToMenu)]
    else [Reply(NoUriText, BackToMenu)]
  }

  function OnText(s: Session, text: string, o: Oracle): Handled {
    var command := CommandOf(text);
    if command == Some("start") then Handled(s, Start())
    else if command == Some("gen") then Handled(s, GenCommand(text))
    else if s.pending.AwaitingCollectionAddress? then Continuation(s, text, o)
    else if MetadataPhrase(text) then Handled(s, MetadataReply(s.lastMetadataUri, o))
    else Handled(s, AgentFallback(text, o))
  }

  // ------------------------------------------------------------------ step

  /** Store what a handler left in the user's session; an unchanged session is not written back. */
  function Commit(store: Store, user: UserId, h: Handled): (r: StepResult)
    ensures SessionOf(r.store, user) == h.session && r.outputs == h.outputs
    ensures forall v :: v != user ==> SessionOf(r.store, v) == SessionOf(store, v)
    ensures r.store.Keys <= store.Keys + {user}
  {
    StepResult(if h.session == SessionOf(store, user) then store else store[user := h.session], h.outputs)
  }

  /** A text message, through the text handlers in registration order, on the sender's session. */
  function TextStep(store: Store, user: UserId, text: string, o: Oracle): StepResult {
    Commit(store, user, OnText(SessionOf(store, user), text, o))
  }

  /** A callback press, through the first matching action handler, on the presser's session. */
  function PressStep(store: Store, user: UserId, data: string, o: Oracle): StepResult {
    Commit(store, user, OnPress(SessionOf(store, user), data, o))
  }

  /** One update of the canonical entry point against a session store that persists across updates. */
  function CanonicalStep(store: Store, u: Update, o: Oracle): (r: StepResult)
    ensures forall v :: v != u.User() ==> SessionOf(r.store, v) == SessionOf(store, v)
    ensures r.store.Keys <= store.Keys + {u.User()}
  {
    match u
    case Text(user, text) => TextStep(store, user, text, o)
    case Press(user, data) => PressStep(store, user, data, o)
  }

  /** Pressing "Mint to Specific Collection" arms the continuation for that image, replacing any earlier one, with no collaborator call. */
  lemma MintSpecificArms(store: Store, user: UserId, id: string, o: Oracle)
    requires IsPlainId(id)
    ensures var r := PressStep(store, user, MintSpecificPrefix + id, o);
      && SessionOf(r.store, user) == SessionOf(store, user).(pending := AwaitingCollectionAddress(id))
      && r.outputs == [Reply(MintSpecificText, CancelKeyboard)]
      && CollaboratorCalls(r.outputs) == 0
  {
    ButtonsRouteHome(id);
    CountTwo([Reply(MintSpecificText, CancelKeyboard)], (x: Output) => x.Invoke?);
  }

  /** Cancel disarms the continuation with no collaborator call. */
  lemma CancelDisarms(store: Store, user: UserId, o: Oracle)
    ensures var r := PressStep(store, user, "cancel_mint_specific", o);
      && SessionOf(r.store, user) == SessionOf(store, user).(pending := Idle)
      && r.outputs == [Reply(CancelledText, BackToMenu)]
      && CollaboratorCalls(r.outputs) == 0
  {
    CancelRoutesHome();
    CountTwo([Reply(CancelledText, BackToMenu)], (x: Output) => x.Invoke?);
  }

  /** While awaiting, text whose trimmed form is not `\w{32,44}` is re-prompted once and the store is left as it was. */
  lemma InvalidAddressReprompts(store: Store, user: UserId, text: string, o: Oracle)
    requires SessionOf(store, user).pending.AwaitingCollectionAddress?
    requires CommandOf(text) != Some("start") && CommandOf(text) != Some("gen")
    requires !IsWordAddress(Trim(text))
    ensures TextStep(store, user, text, o) == StepResult(store, [Reply(InvalidAddressText, [])])
  {
  }

  /** While awaiting, a fetch that fails or yields null reaches `bot.catch` and keeps the continuation armed. */
  lemma FetchFailureKeepsWaiting(store: Store, user: UserId, text: string, o: Oracle)
    requires SessionOf(store, user).pending.AwaitingCollectionAddress?
    requires CommandOf(text) != Some("start") && CommandOf(text) != Some("gen")
    requires IsWordAddress(Trim(text))
    requires !o.images.Rows?
    ensures TextStep(store, user, text, o) == StepResult(store, [Invoke(FetchUserImages), Reply(CatchReply, [])])
  {
  }

  /** While awaiting, a valid address for an image the user does not own disarms, answers "Image not found." and asks no agent. */
  lemma MissingImageDisarms(store: Store, user: UserId, text: string, images: seq<ImageRecord>, o: Oracle)
    requires SessionOf(store, user).pending.AwaitingCollectionAddress?
    requires CommandOf(text) != Some("start") && CommandOf(text) != Some("gen")
    requires IsWordAddress(Trim(text))
    requires o.images == Rows(images)
    requires forall k :: 0 <= k < |images| ==> images[k].id != SessionOf(store, user).pending.imageId
    ensures var r := TextStep(store, user, text, o);
      && SessionOf(r.store, user) == SessionOf(store, user).(pending := Idle)
      && r.outputs == [Invoke(FetchUserImages), Reply("Image not found.", BackToMenu)]
      && AgentCalls(r.outputs) == 0
  {
    CountTwo([Invoke(FetchUserImages), Reply("Image not found.", BackToMenu)], IsAgentCall);
  }

  /** While awaiting, text other than `/start` and `/gen` goes to the continuation. */
  lemma AwaitingTextContinues(s: Session, text: string, o: Oracle)
    requires s.pending.AwaitingCollectionAddress?
    requires CommandOf(text) != Some("start") && CommandOf(text) != Some("gen")
    ensures OnText(s, text, o) == Continuation(s, text, o)
  {
  }

  /** The continuation for the user's image: disarm, ask the agent to mint it at the trimmed address, answer. */
  lemma ContinuationMints(s: Session, text: string, images: seq<ImageRecord>, k: nat, o: Oracle)
    requires s.pending.AwaitingCollectionAddress?
    requires IsWordAddress(Trim(text))
    requires o.images == Rows(images)
    requires k < |images| && images[k].id == s.pending.imageId
    requires forall j :: 0 <= j < k ==> images[j].id != images[k].id
    ensures Continuation(s, text, o) == Handled(s.(pending := Idle),
      [Invoke(FetchUserImages), Invoke(Agent(MintPrompt(images[k].prompt, Trim(text), images[k].url))),
       if o.fault == FinalReplyFails then Reply(CatchReply, []) else Reply(o.agentReply, BackToMenu)])
  {
    assert FindImage(images, s.pending.imageId) == Some(images[k]);
  }

  /** A fetch, an agent call and a reply: one agent call, one reply. */
  lemma MintAnswerCounts(outs: seq<Output>)
    requires |outs| == 3 && outs[0] == Invoke(FetchUserImages) && IsAgentCall(outs[1]) && outs[2].Reply?
    ensures AgentCalls(outs) == 1 && Replies(outs) == 1
  {
    CountThree(outs, IsAgentCall);
    CountThree(outs, IsReply);
  }

  /**
   * While awaiting, a valid address for the user's image asks the agent exactly
   * once, to mint that image (the first with the awaited id) into the collection
   * at the trimmed address, then disarms and sends the agent's reply (the
   * `bot.catch` apology when that reply fails, still disarmed).
   */
  lemma FoundImageMints(store: Store, user: UserId, text: string, images: seq<ImageRecord>, k: nat, o: Oracle)
    requires SessionOf(store, user).pending.AwaitingCollectionAddress?
    requires CommandOf(text) != Some("start") && CommandOf(text) != Some("gen")
    requires IsWordAddress(Trim(text))
    requires o.images == Rows(images)
    requires k < |images| && images[k].id == SessionOf(store, user).pending.imageId
    requires forall j :: 0 <= j < k ==> images[j].id != images[k].id
    ensures var r := TextStep(store, user, text, o);
      && SessionOf(r.store, user) == SessionOf(store, user).(pending := Idle)
      && |r.outputs| == 3
      && r.outputs[..2] == [Invoke(FetchUserImages), Invoke(Agent(MintPrompt(images[k].prompt, Trim(text), images[k].url)))]
      && r.outputs[2] == (if o.fault == FinalReplyFails then Reply(CatchReply, []) else Reply(o.agentReply, BackToMenu))
      && AgentCalls(r.outputs) == 1
      && Replies(r.outputs) == 1
  {
    var s := SessionOf(store, user);
    AwaitingTextContinues(s, text, o);
    ContinuationMints(s, text, images, k, o);
    var h := Continuation(s, text, o);
    MintAnswerCounts(h.outputs);
  }

  /** `/start` and `/gen` are registered first: they answer whatever the session holds, and leave it alone. */
  lemma CommandsComeFirst(store: Store, user: UserId, text: string, o: Oracle)
    requires CommandOf(text) == Some("start") || CommandOf(text) == Some("gen")
    ensures TextStep(store, user, text, o)
      == StepResult(store, if CommandOf(text) == Some("start") then Start() else GenCommand(text))
  {
  }

  /**
   * While awaiting, any other slash command is taken by the continuation (it
   * is registered before the fallback that would ignore it): since `/` is not a
   * word character it is re-prompted as an invalid address.
   */
  lemma SlashCommandCapturedWhileAwaiting(store: Store, user: UserId, text: string, o: Oracle)
    requires SessionOf(store, user).pending.AwaitingCollectionAddress?
    requires StartsWith(text, "/")
    requires CommandOf(text) != Some("start") && CommandOf(text) != Some("gen")
    ensures TextStep(store, user, text, o) == StepResult(store, [Reply(InvalidAddressText, [])])
  {
    assert text[0] == '/';
    TrimKeepsFirst(text);
    assert !IsWordChar(Trim(text)[0]);
  }

  /** With nothing pending, slash text that is neither `/start`, `/gen` nor the metadata phrase is ignored. */
  lemma SlashTextIgnoredWhenIdle(store: Store, user: UserId, text: string, o: Oracle)
    requires SessionOf(store, user).pending == Idle
    requires StartsWith(text, "/") && !MetadataPhrase(text)
    requires CommandOf(text) != Some("start") && CommandOf(text) != Some("gen")
    ensures TextStep(store, user, text, o) == StepResult(store, [])
  {
  }

  /** With nothing pending, plain text that is not the metadata phrase goes to the agent fallback unchanged. */
  lemma PlainTextToAgentWhenIdle(store: Store, user: UserId, text: string, o: Oracle)
    requires SessionOf(store, user).pending == Idle
    requires !StartsWith(text, "/") && !MetadataPhrase(text)
    ensures TextStep(store, user, text, o) == StepResult(store, AgentFallback(text, o))
    ensures Replies(AgentFallback(text, o)) == 1
  {
    assert CommandOf(text).None?;
    AgentFallbackAnswersOnce(text, o);
  }

  /** The metadata phrase uses the URI the session remembers, or explains that there is none. */
  lemma MetadataPhraseUsesRememberedUri(store: Store, user: UserId, text: string, o: Oracle)
    requires SessionOf(store, user).pending == Idle
    requires MetadataPhrase(text)
    requires CommandOf(text) != Some("start") && CommandOf(text) != Some("gen")
    ensures var uri := SessionOf(store, user).lastMetadataUri;
      var r := TextStep(store, user, text, o);
      && r.store == store
      && (uri.Some? && uri.value != [] ==> r.outputs == [Invoke(Agent(CollectionPromptLead + uri.value)), Reply(o.agentReply, BackToMenu)])
      && (uri.None? || uri.value == [] ==> r.outputs == [Reply(NoUriText, BackToMenu)])
  {
  }

  /** A `/gen` button press reaches the generation handler with the encoded prompt, whatever the session holds. */
  lemma GenButtonsReachGeneration(s: Session, e: string, o: Oracle)
    requires IsPlainId(e)
    ensures OnPress(s, StandardPrefix + e, o) == Handled(s, GenPressed(e, false, LinkedPhoto, o))
    ensures OnPress(s, TransparentPrefix + e, o) == Handled(s, GenPressed(e, true, LinkedPhoto, o))
  {
    ButtonsRouteHome(e);
  }

  /**
   * `/gen` end to end: the question's buttons, pressed by the same user, make
   * exactly the prompt the command carried, standard or transparent.
   */
  lemma GenRoundTrip(store: Store, user: UserId, text: string, o: Oracle)
    requires CommandOf(text) == Some("gen") && CommandArgument(text, "gen") != []
    requires |UriComponent.Encode(CommandArgument(text, "gen"))| <= MaxEncodedPrompt
    ensures var prompt := CommandArgument(text, "gen");
      var k := GenButtons(prompt);
      && TextStep(store, user, text, o) == StepResult(store, [Reply(TypeQuestion(prompt), k)])
      && PressStep(store, user, k[0][0].data, o).outputs
         == Generation(prompt, false, StandardStatus, LinkedPhoto, o)
      && PressStep(store, user, k[0][1].data, o).outputs
         == Generation(prompt, true, TransparentStatus, LinkedPhoto, o)
  {
    var prompt := CommandArgument(text, "gen");
    var s := SessionOf(store, user);
    var e := UriComponent.Encode(prompt);
    GenButtonsFitIff(prompt);
    EncodedIsPlain(e);
    UriComponent.DecodeEncode(prompt);
    GenButtonsReachGeneration(s, e, o);
  }

  /** A `/gen` prompt whose encoding overflows the callback data gets only the `bot.catch` apology. */
  lemma LongGenPromptApologises(store: Store, user: UserId, text: string, o: Oracle)
    requires CommandOf(text) == Some("gen") && CommandArgument(text, "gen") != []
    requires |UriComponent.Encode(CommandArgument(text, "gen"))| > MaxEncodedPrompt
    ensures TextStep(store, user, text, o) == StepResult(store, [Reply(CatchReply, [])])
  {
    GenCommandAnswers(text);
  }

  /**
   * Only three things change the pending action: "Mint to Specific
   * Collection" arms it, Cancel disarms it, and the continuation disarms it
   * once it has a valid address and a successful fetch.
   */
  lemma PendingChangesOnlyThere(store: Store, u: Update, o: Oracle)
    ensures var before := SessionOf(store, u.User()).pending;
      var after := SessionOf(CanonicalStep(store, u, o).store, u.User()).pending;
      after != before ==>
        (u.Press? && (RouteOf(u.data).MintSpecificRoute? || RouteOf(u.data) == CancelMintRoute))
        || (u.Text? && before.AwaitingCollectionAddress? && after == Idle && IsWordAddress(Trim(u.text)) && o.images.Rows?)
  {
    var s := SessionOf(store, u.User());
    if u.Press? && RouteOf(u.data).CreateCollectionRoute? {
      CreateCollectionRemembersUri(s, RouteOf(u.data).imageId, o);
    }
  }

  /** Only a collection creation changes the remembered metadata URI. */
  lemma UriChangesOnlyThere(store: Store, u: Update, o: Oracle)
    ensures var before := SessionOf(store, u.User()).lastMetadataUri;
      var after := SessionOf(CanonicalStep(store, u, o).store, u.User()).lastMetadataUri;
      after != before ==> u.Press? && RouteOf(u.data).CreateCollectionRoute?
  {
  }

  // ------------------------------------------------- session as written

  /**
   * The entry point as written: its only "session middleware" sets
   * `ctx.session = ctx.session || {}` on a context Telegraf builds afresh for
   * every update, and no session store is installed, so every update starts
   * from the empty session and whatever a handler writes into it is dropped.
   */
  function FreshContextStep(u: Update, o: Oracle): (outs: seq<Output>)
    ensures outs == CanonicalStep(map[], u, o).outputs
  {
    match u
    case Text(user, text) => FreshTextStep(user, text, o)
    case Press(user, data) => FreshPressStep(user, data, o)
  }

  /** A text message as written: the handlers see the empty session. */
  function FreshTextStep(user: UserId, text: string, o: Oracle): (outs: seq<Output>)
    ensures outs == TextStep(map[], user, text, o).outputs
  {
    OnText(FreshSession, text, o).outputs
  }

  /** A callback press as written: the handler sees the empty session. */
  function FreshPressStep(user: UserId, data: string, o: Oracle): (outs: seq<Output>)
    ensures outs == PressStep(map[], user, data, o).outputs
  {
    OnPress(FreshSession, data, o).outputs
  }

  /** Text whose trimmed form is a word address names no command: a leading `/` would survive the trim. */
  lemma WordAddressIsNoCommand(text: string)
    requires IsWordAddress(Trim(text))
    ensures CommandOf(text) == None
  {
    if text != [] && text[0] == '/' {
      TrimKeepsFirst(text);
    }
  }

  /** Text made of word characters never contains the metadata phrase, whose sixth character is a space. */
  lemma WordTextIsNoPhrase(text: string)
    requires forall i :: 0 <= i < |text| ==> IsWordChar(text[i])
    ensures !MetadataPhrase(text)
  {
    forall p, i | p in MetadataPhrases && 0 <= i <= |text|
      ensures !OccursFoldedAt(text, p, i)
    {
      assert p[5] == ' ';
    }
  }

  /** With nothing pending, a word-character message (an address, say) goes to the agent fallback. */
  lemma IdleWordTextToAgent(s: Session, text: string, o: Oracle)
    requires s.pending == Idle && IsWordAddress(text)
    ensures OnText(s, text, o) == Handled(s, AgentFallback(text, o))
  {
    WordTextIsNoPhrase(text);
    assert text[0] != '/';
  }

  /**
   * As written, "Mint to Specific Collection" cannot complete: the press
   * answers with the request for an address, but the address the user then
   * sends reaches the agent fallback as a bare message, never as the mint
   * prompt for the image.
   */
  lemma AsWrittenAddressIsNotMinted(user: UserId, id: string, address: string, o1: Oracle, o2: Oracle)
    requires IsPlainId(id) && IsWordAddress(address)
    ensures FreshPressStep(user, MintSpecificPrefix + id, o1) == [Reply(MintSpecificText, CancelKeyboard)]
    ensures FreshTextStep(user, address, o2) == AgentFallback(address, o2)
    ensures o2.fault != ChatActionFails ==> Invoke(Agent(address)) in FreshTextStep(user, address, o2)
    ensures forall prompt, url :: Invoke(Agent(MintPrompt(prompt, address, url))) !in FreshTextStep(user, address, o2)
  {
    ButtonsRouteHome(id);
    IdleWordTextToAgent(FreshSession, address, o2);
    FallbackNeverMints(address, o2);
  }

  /** The fallback sends a word-character message to the agent as it is, so never as a mint prompt for it. */
  lemma FallbackNeverMints(address: string, o: Oracle)
    requires IsWordAddress(address)
    ensures o.fault != ChatActionFails ==> Invoke(Agent(address)) in AgentFallback(address, o)
    ensures forall prompt, url :: Invoke(Agent(MintPrompt(prompt, address, url))) !in AgentFallback(address, o)
  {
    var o2 := o;
    var outs := AgentFallback(address, o2);
    assert address[0] != '/';
    AgentFallbackAnswersOnce(address, o2);
    if o2.fault != ChatActionFails {
      assert outs[2] == Invoke(Agent(address));
    }
    forall prompt, url
      ensures Invoke(Agent(MintPrompt(prompt, address, url))) !in outs
    {
      assert |MintPrompt(prompt, address, url)| > |address|;
    }
  }

  /**
   * As written, the metadata URI a collection creation pinned is gone by the
   * next message: the phrase asking to use it always gets the "no metadata
   * URI" answer.
   */
  lemma AsWrittenUriIsForgotten(user: UserId, text: string, o: Oracle)
    requires MetadataPhrase(text)
    requires CommandOf(text) != Some("start") && CommandOf(text) != Some("gen")
    ensures FreshTextStep(user, text, o) == [Reply(NoUriText, BackToMenu)]
  {
  }

  /**
   * With the session persisted per user, "Mint to Specific Collection"
   * completes: after the press, an address for an image the user owns asks the
   * agent to mint exactly that image into exactly that collection.
   */
  lemma PendingMintCompletes(store: Store, user: UserId, id: string, text: string, images: seq<ImageRecord>, k: nat, o1: Oracle, o2: Oracle)
    requires IsPlainId(id)
    requires IsWordAddress(Trim(text))
    requires o2.images == Rows(images)
    requires k < |images| && images[k].id == id
    requires forall j :: 0 <= j < k ==> images[j].id != id
    ensures var r1 := PressStep(store, user, MintSpecificPrefix + id, o1);
      var r2 := TextStep(r1.store, user, text, o2);
      && |r2.outputs| == 3
      && r2.outputs[1] == Invoke(Agent(MintPrompt(images[k].prompt, Trim(text), images[k].url)))
      && SessionOf(r2.store, user).pending == Idle
  {
    MintSpecificArms(store, user, id, o1);
    var r1 := PressStep(store, user, MintSpecificPrefix + id, o1);
    var s := SessionOf(r1.store, user);
    WordAddressIsNoCommand(text);
    AwaitingTextContinues(s, text, o2);
    ContinuationMints(s, text, images, k, o2);
  }

  /**
   * With the session persisted per user, a collection creation that pinned
   * its metadata makes the phrase hand that metadata URI to the agent.
   */
  lemma PinnedUriIsReused(store: Store, user: UserId, imageId: string, text: string, o1: Oracle, o2: Oracle)
    requires IsPlainId(imageId)
    requires MetadataPinned(SessionOf(store, user), imageId, o1)
    requires SessionOf(store, user).pending == Idle
    requires MetadataPhrase(text)
    requires CommandOf(text) != Some("start") && CommandOf(text) != Some("gen")
    ensures var r1 := PressStep(store, user, CreateCollectionPrefix + imageId, o1);
      TextStep(r1.store, user, text, o2).outputs
        == [Invoke(Agent(MetadataUriAgentPrompt(PinataUrl(o1.pinnedMetadata.value)))), Reply(o2.agentReply, BackToMenu)]
  {
    var s := SessionOf(store, user);
    CreatePressStep(store, user, imageId, o1);
    CreateCollectionRemembersUri(s, imageId, o1);
    var r1 := PressStep(store, user, CreateCollectionPrefix + imageId, o1);
    MetadataPhraseUsesRememberedUri(r1.store, user, text, o2);
  }

  /** A "Create NFT Collection" press stores, for the presser, the session its handler leaves. */
  lemma CreatePressStep(store: Store, user: UserId, imageId: string, o: Oracle)
    requires IsPlainId(imageId)
    ensures SessionOf(PressStep(store, user, CreateCollectionPrefix + imageId, o).store, user)
      == CreateCollection(SessionOf(store, user), imageId, o).session
  {
    ButtonsRouteHome(imageId);
  }
}
