/**
 * Handlers the canonical entry point (src/index.ts) and the compiled one
 * (dist/index.js) share: the menus, `/gen` and its image-type buttons, the
 * image-generation flow, the "My Images" listing and the agent fallback for
 * plain text. Each handler maps its input and the collaborators' answers to
 * the outputs it produces, in order.
 */
module Handlers {
  import opened Basics
  import opened JsText
  import opened Telegram
  import opened Prompts
  import opened ImageList
  import opened Effects
  import UriComponent

  /** The reply of `bot.catch` for an error no handler caught. */
  const CatchReply: string := "Sorry, an error occurred." + " Please try again later."

  const WelcomeText: string :=
    "Welcome to Solana Image "
    + "Generation Bot! I can generate "
    + "images and help with Solana "
    + "blockchain."
  const StartCommands: seq<string> := ["/gen", "/myimages", "/wallet", "/help"]

  /** `/start`: publish the command list and show the main menu. */
  function Start(): seq<Output> {
    [SetCommands(StartCommands), Reply(WelcomeText, MainMenu)]
  }

  function RequestImage(): seq<Output> {
    [Reply("Please send me your image " + "prompt or use /gen [prompt]", [])]
  }

  /** `open_wallet`: ask Privy whether the wallet is delegated, then show the wallet menu for that answer. */
  function OpenWallet(delegated: bool): seq<Output> {
    [Invoke(CheckDelegation), Reply("Manage your Solana wallet:", WalletMenu(delegated))]
  }

  const HelpText: string :=
    "\nI can help you with:\n\n"
    + "\U{1F5BC} Generating images from your "
    + "text descriptions\n"
    + "\U{1F45B} Managing your Solana wallet\n"
    + "\U{1F517} Interacting with the Solana "
    + "blockchain\n\U{1F310} Answering "
    + "questions about Solana, NFTs, "
    + "and crypto\n\nUse these commands:\n"
    + "/gen [prompt] - Generate an "
    + "image\n/myimages - View your "
    + "stored images\n/wallet - Manage "
    + "your Solana wallet\n  "

  function ShowHelp(): seq<Output> {
    [Reply(HelpText, BackToMenu)]
  }

  function BackToMenuPressed(): seq<Output> {
    [Reply("What would you like to do?", MainMenu)]
  }

  /** The exact-match menu actions behind the main menu's buttons and "« Back to Menu". */
  const MenuActions: set<string> := {"request_image", "open_wallet", "view_images", "show_help", "back_to_menu"}

  /** The handler of a menu action; `open_wallet` and `view_images` consult Privy and Supabase. */
  function MenuPressed(action: string, o: Oracle): seq<Output> {
    if action == "request_image" then RequestImage()
    else if action == "open_wallet" then OpenWallet(o.delegated)
    else if action == "view_images" then ViewImages(o.images)
    else if action == "show_help" then ShowHelp()
    else BackToMenuPressed()
  }

  /** The exact-match wallet actions; each hands over to Privy. */
  const WalletActions: set<string> := {"wallet:create", "wallet:view", "wallet:export", "wallet:delegate", "wallet:revoke"}

  function WalletAction(action: string): seq<Output> {
    [Invoke(WalletOperation(action))]
  }

  /** Button data `p + id` built on a handler prefix that does not open with `w` is none of the exact-match actions. */
  lemma PrefixedDataIsNotExact(p: string, id: string)
    requires IsHandlerPrefix(p) && p[0] != 'w'
    ensures p + id !in MenuActions && p + id !in WalletActions
  {
    var d := p + id;
    assert d[0] == p[0];
    assert d[|p| - 1] == ':';
    ColonDataIsNotExact(d, "request_image");
    ColonDataIsNotExact(d, "open_wallet");
    ColonDataIsNotExact(d, "view_images");
    ColonDataIsNotExact(d, "show_help");
    ColonDataIsNotExact(d, "back_to_menu");
    assert forall w | w in WalletActions :: w[0] == 'w';
  }

  const NoImagesText: string :=
    "You have no stored images yet."
    + " Use /gen or send an image "
    + "prompt to create some!"

  /** `view_images`: a failed fetch reaches `bot.catch`; a null or empty result gets the "no images" reply. */
  function ViewImages(rows: Rows): seq<Output> {
    match rows
    case FetchFails => [Invoke(FetchUserImages), Reply(CatchReply, [])]
    case NullRows => [Invoke(FetchUserImages), Reply(NoImagesText, BackToMenu)]
    case Rows(images) =>
      if images == [] then [Invoke(FetchUserImages), Reply(NoImagesText, BackToMenu)]
      else [Invoke(FetchUserImages), Reply(ListMessage(images), BackToMenu)]
  }

  /**
   * `view_images` answers once, after one fetch. The answer is a listing
   * (it opens with the listing header) exactly when the fetch found images;
   * it then lists them and carries the count line exactly when there are more
   * than five. A null result is answered like an empty one.
   */
  lemma ViewImagesAnswer(rows: Rows)
    ensures |ViewImages(rows)| == 2 && ViewImages(rows)[0] == Invoke(FetchUserImages)
    ensures Replies(ViewImages(rows)) == 1
    ensures StartsWith(ViewImages(rows)[1].text, Header) <==> rows.Rows? && rows.images != []
    ensures rows.Rows? && rows.images != [] ==> ViewImages(rows)[1] == Reply(ListMessage(rows.images), BackToMenu)
    ensures rows.Rows? && rows.images != [] ==>
      (EndsWith(ViewImages(rows)[1].text, CountTail) <==> |rows.images| > ShownMax)
    ensures rows.NullRows? ==> ViewImages(rows) == ViewImages(Rows([]))
  {
    var outs := ViewImages(rows);
    CountTwo(outs, IsReply);
    if rows.Rows? && rows.images != [] {
      TrailerIff(rows.images);
      ListStartsWithHeader(rows.images);
    } else {
      NotAListing(outs[1].text);
    }
  }

  lemma ListStartsWithHeader(images: seq<ImageRecord>)
    requires images != []
    ensures StartsWith(ListMessage(images), Header)
  {
    StartsWithConcat(Header, EntriesFrom(images[..Shown(|images|)], 1), Trailer(|images|));
  }

  /** The "no images" reply and the `bot.catch` reply do not open with the listing header. */
  lemma NotAListing(text: string)
    requires text == NoImagesText || text == CatchReply
    ensures !StartsWith(text, Header)
  {
    assert Header[0] == '\U{1F5BC}';
    if text == NoImagesText {
      assert text[0] == 'Y';
    } else {
      assert text[0] == 'S';
    }
  }

  const GenUsage: string := "Please provide a prompt for " + "your image. Example: A " + "beautiful sunset"

  /** The question `/gen` asks about a non-empty prompt. */
  function TypeQuestion(prompt: string): string {
    "Please select image type for: \"" + prompt + "\""
  }

  /**
   * `/gen [prompt]`: the usage reply for an empty prompt, otherwise the two
   * image-type buttons. Telegram rejects a reply whose callback data is too
   * long, and the rejection reaches `bot.catch`.
   */
  function GenCommand(text: string): seq<Output> {
    var prompt := CommandArgument(text, "gen");
    if prompt == [] then [Reply(GenUsage, [])]
    else if !KeyboardFits(GenButtons(prompt)) then [Reply(CatchReply, [])]
    else [Reply(TypeQuestion(prompt), GenButtons(prompt))]
  }

  /**
   * `/gen` with a prompt offers the buttons exactly when its encoding fits the
   * callback data; otherwise the only answer is the `bot.catch` apology.
   */
  lemma GenCommandAnswers(text: string)
    requires CommandArgument(text, "gen") != []
    ensures var prompt := CommandArgument(text, "gen");
      && (|UriComponent.Encode(prompt)| <= MaxEncodedPrompt ==>
            GenCommand(text) == [Reply(TypeQuestion(prompt), GenButtons(prompt))])
      && (|UriComponent.Encode(prompt)| > MaxEncodedPrompt ==> GenCommand(text) == [Reply(CatchReply, [])])
  {
    GenButtonsFitIff(CommandArgument(text, "gen"));
  }

  const GenerationError: string :=
    "Sorry, there was an error "
    + "generating your image. Please "
    + "try again later."

  /** How an entry point presents a generated image: a Markdown link with the collection buttons, or a plain caption with the Pump/mint buttons. */
  datatype PhotoStyle = LinkedPhoto | PumpMintPhoto(captionLead: string)

  const CreateCollectionPrefix: string := "create_collection:"
  const MintSpecificPrefix: string := "mint_specific:"
  const PumpPrefix: string := "pump:"
  const MintPrefix: string := "mint:"

  function PhotoCaption(style: PhotoStyle, prompt: string, image: StoredImage): string {
    match style
    case LinkedPhoto => "Image generated: \"" + prompt + "\"\n\n[View Image](" + image.url + ")"
    case PumpMintPhoto(lead) => lead + "\"" + prompt + "\""
  }

  /** The buttons under a generated image; each carries the stored image's id after its handler's prefix. */
  function PhotoButtons(style: PhotoStyle, image: StoredImage): (k: Keyboard)
    ensures |k| == 1 && |k[0]| == 2
  {
    match style
    case LinkedPhoto =>
      [[Button("Create NFT Collection", CreateCollectionPrefix + image.id),
        Button("Mint to Specific Collection", MintSpecificPrefix + image.id)]]
    case PumpMintPhoto(_) =>
      [[Button("Launch on Pump", PumpPrefix + image.id), Button("Mint to Collection", MintPrefix + image.id)]]
  }

  /** The prefixes the two buttons of a style are handled by. */
  function ButtonPrefixes(style: PhotoStyle): (string, string) {
    match style
    case LinkedPhoto => (CreateCollectionPrefix, MintSpecificPrefix)
    case PumpMintPhoto(_) => (PumpPrefix, MintPrefix)
  }

  /** Both buttons under a generated image hand the stored image's id back to their handlers, and not to each other's. */
  lemma PhotoButtonsCarryId(style: PhotoStyle, image: StoredImage)
    requires IsPlainId(image.id)
    ensures Capture(PhotoButtons(style, image)[0][0].data, ButtonPrefixes(style).0) == Some(image.id)
    ensures Capture(PhotoButtons(style, image)[0][1].data, ButtonPrefixes(style).1) == Some(image.id)
    ensures Capture(PhotoButtons(style, image)[0][0].data, ButtonPrefixes(style).1) == None
    ensures Capture(PhotoButtons(style, image)[0][1].data, ButtonPrefixes(style).0) == None
  {
    var (a, b) := ButtonPrefixes(style);
    CaptureOwnPrefix(a, image.id);
    CaptureOwnPrefix(b, image.id);
    assert IsHandlerPrefix(a) && IsHandlerPrefix(b);
    match style
    case LinkedPhoto =>
      assert a[|a| - 2] == 'n' && b[|b| - 2] == 'c';
      CaptureOtherPrefix(a, image.id, b);
      CaptureOtherPrefix(b, image.id, a);
    case PumpMintPhoto(_) =>
      assert a[|a| - 2] == 'p' && b[|b| - 2] == 't';
      CaptureOtherPrefix(a, image.id, b);
      CaptureOtherPrefix(b, image.id, a);
  }

  /**
   * The generation flow: a status message, the image model and `storeImage`,
   * the photo with its buttons, then deletion of the status message. The first
   * failure ends the flow with the one error reply.
   */
  function Generation(prompt: string, transparent: bool, status: string, style: PhotoStyle, o: Oracle): seq<Output> {
    if o.fault == StatusReplyFails(1) then [Reply(GenerationError, [])]
    else
      var started := [StatusSent(1, status), Invoke(GenerateImage(prompt, transparent))];
      match o.generated
      case None => started + [Reply(GenerationError, [])]
      case Some(image) =>
        if o.fault == FinalReplyFails then started + [Reply(GenerationError, [])]
        else
          var shown := started + [PhotoReply(PhotoCaption(style, prompt, image), PhotoButtons(style, image))];
          if o.fault == DeleteFails(1) then shown + [Reply(GenerationError, [])]
          else shown + [StatusDeleted(1)]
  }

  /** The photo reaches the chat: the status message went out, the image was made and stored, and the photo was accepted. */
  predicate PhotoDelivered(o: Oracle) {
    o.fault != StatusReplyFails(1) && o.generated.Some? && o.fault != FinalReplyFails
  }

  /**
   * Generation asks the image model once, for exactly the given prompt and
   * background. The photo is sent exactly when it is delivered, and the flow
   * ends with the error reply exactly when some step failed.
   */
  lemma GenerationOutcome(prompt: string, transparent: bool, status: string, style: PhotoStyle, o: Oracle)
    ensures var outs := Generation(prompt, transparent, status, style, o);
      && outs != []
      && (forall i :: 0 <= i < |outs| && outs[i].Invoke? ==> outs[i].call == GenerateImage(prompt, transparent))
      && ((exists i :: 0 <= i < |outs| && outs[i].PhotoReply?) <==> PhotoDelivered(o))
      && (outs[|outs| - 1] == Reply(GenerationError, []) <==> !(PhotoDelivered(o) && o.fault != DeleteFails(1)))
  {
    var outs := Generation(prompt, transparent, status, style, o);
    if PhotoDelivered(o) {
      assert outs[2].PhotoReply?;
    }
  }

  /**
   * A successful flow leaves no status message behind. A failure after the
   * status message went out, before the photo, leaves it on screen: the
   * handler never deletes it on that path.
   */
  lemma GenerationStatus(prompt: string, transparent: bool, status: string, style: PhotoStyle, o: Oracle)
    ensures var outs := Generation(prompt, transparent, status, style, o);
      && (PhotoDelivered(o) && o.fault != DeleteFails(1) ==> LiveAfter({}, outs) == {})
      && (o.fault != StatusReplyFails(1) && !PhotoDelivered(o) ==> LiveAfter({}, outs) == {1})
      && (o.fault == StatusReplyFails(1) ==> LiveAfter({}, outs) == {})
  {
    var outs := Generation(prompt, transparent, status, style, o);
    if o.fault != StatusReplyFails(1) {
      var rest := outs[2..];
      assert outs == [outs[0]] + ([outs[1]] + rest);
      LiveCons({}, outs[0], [outs[1]] + rest);
      assert NextLive({}, outs[0]) == {1};
      LiveCons({1}, outs[1], rest);
      assert LiveAfter({}, outs) == LiveAfter({1}, rest);
      if PhotoDelivered(o) {
        assert rest == [rest[0]] + ([rest[1]] + []);
        LiveCons({1}, rest[0], [rest[1]] + []);
        LiveCons({1}, rest[1], []);
        if o.fault != DeleteFails(1) {
          assert rest[1] == StatusDeleted(1);
          assert NextLive({1}, rest[1]) == {};
          assert LiveAfter({}, []) == {};
        } else {
          assert rest[1].Reply?;
        }
      } else {
        assert rest == [rest[0]] + [];
        assert rest[0].Reply?;
        LiveCons({1}, rest[0], []);
        assert NextLive({1}, rest[0]) == {1};
        assert LiveAfter({1}, []) == {1};
      }
    } else {
      assert outs == [outs[0]] + [];
      LiveCons({}, outs[0], []);
    }
  }

  /** The caption lead under a generated image in the legacy and compiled entry points. */
  const ImageCaptionLead: string := "Image generated: "

  const StandardStatus: string := "\U{1F3A8} Generating your image, please " + "wait..."
  const TransparentStatus: string := "\U{1F3A8} Generating your transparent " + "image, please wait..."

  /** A `genstandard:`/`gentransparent:` press: decode the capture, then generate. A malformed escape ends in the error reply. */
  function GenPressed(capture: string, transparent: bool, style: PhotoStyle, o: Oracle): seq<Output> {
    match UriComponent.Decode(capture)
    case None => [Reply(GenerationError, [])]
    case Some(prompt) =>
      Generation(prompt, transparent, if transparent then TransparentStatus else StandardStatus, style, o)
  }

  /**
   * `/gen` round trip: for a command with a non-empty argument, the question
   * carries two buttons, and pressing either one generates exactly that
   * argument, standard or transparent.
   */
  lemma GenCommandThenPress(text: string, style: PhotoStyle, o: Oracle)
    requires CommandOf(text) == Some("gen")
    requires CommandArgument(text, "gen") != []
    requires |UriComponent.Encode(CommandArgument(text, "gen"))| <= MaxEncodedPrompt
    ensures var prompt := CommandArgument(text, "gen");
      && GenCommand(text) == [Reply(TypeQuestion(prompt), GenButtons(prompt))]
      && Capture(GenButtons(prompt)[0][0].data, StandardPrefix).Some?
      && GenPressed(Capture(GenButtons(prompt)[0][0].data, StandardPrefix).value, false, style, o)
         == Generation(prompt, false, StandardStatus, style, o)
      && Capture(GenButtons(prompt)[0][1].data, TransparentPrefix).Some?
      && GenPressed(Capture(GenButtons(prompt)[0][1].data, TransparentPrefix).value, true, style, o)
         == Generation(prompt, true, TransparentStatus, style, o)
  {
    var prompt := CommandArgument(text, "gen");
    GenButtonsFitIff(prompt);
    GenPayloadRoundTrip(prompt);
  }

  const MessageError: string :=
    "Sorry, there was an error "
    + "processing your message. Please "
    + "try again later."

  /**
   * The agent fallback for text: slash-prefixed text is ignored; other text
   * starts the typing indicator, goes to the agent, and the answer is sent.
   * The interval is cleared in a `finally`, so on success and on a failed
   * reply alike; any failure ends in the error reply.
   */
  function AgentFallback(text: string, o: Oracle): seq<Output> {
    if StartsWith(text, "/") then []
    else if o.fault == ChatActionFails then [Reply(MessageError, [])]
    else
      [ChatAction, TypingStarted, Invoke(Agent(text))]
      + (if o.fault == FinalReplyFails then [TypingCleared, Reply(MessageError, [])]
         else [Reply(o.agentReply, []), TypingCleared])
  }

  predicate IsTypingStart(x: Output) {
    x.TypingStarted?
  }

  predicate IsTypingStop(x: Output) {
    x.TypingCleared?
  }

  /** The fallback ignores exactly the slash-prefixed text. */
  lemma AgentFallbackIgnoresSlash(text: string, o: Oracle)
    ensures AgentFallback(text, o) == [] <==> StartsWith(text, "/")
  {
  }

  /**
   * Any text the fallback does not ignore gets exactly one reply: the agent's
   * answer, or the error reply when the chat action or the answer failed. The
   * agent is asked at most once, with the text unchanged.
   */
  lemma AgentFallbackAnswersOnce(text: string, o: Oracle)
    requires !StartsWith(text, "/")
    ensures var outs := AgentFallback(text, o);
      && Replies(outs) == 1
      && AgentCalls(outs) == (if o.fault == ChatActionFails then 0 else 1)
      && (forall i :: 0 <= i < |outs| && outs[i].Invoke? ==> outs[i].call == Agent(text))
      && (o.fault == ChatActionFails || o.fault == FinalReplyFails ==> outs[|outs| - 1] == Reply(MessageError, []))
      && (o.fault != ChatActionFails && o.fault != FinalReplyFails ==> outs[3] == Reply(o.agentReply, []))
  {
    var outs := AgentFallback(text, o);
    if o.fault != ChatActionFails {
      var head := [ChatAction, TypingStarted, Invoke(Agent(text))];
      var tail := outs[3..];
      assert outs == head + tail;
      CountConcat(head, tail, IsReply);
      CountConcat(head, tail, IsAgentCall);
      CountThree(head, IsReply);
      CountThree(head, IsAgentCall);
      CountTwo(tail, IsReply);
      CountTwo(tail, IsAgentCall);
    } else {
      CountTwo(outs, IsReply);
      CountTwo(outs, IsAgentCall);
    }
  }

  /** The typing interval is started at most once and, once started, always cleared after it. */
  lemma AgentFallbackClearsTyping(text: string, o: Oracle)
    ensures var outs := AgentFallback(text, o);
      && Count(outs, IsTypingStart) == Count(outs, IsTypingStop) <= 1
      && (forall i :: 0 <= i < |outs| && outs[i].TypingStarted? ==> exists j :: i < j < |outs| && outs[j].TypingCleared?)
  {
    var outs := AgentFallback(text, o);
    if !StartsWith(text, "/") && o.fault != ChatActionFails {
      var head := [ChatAction, TypingStarted, Invoke(Agent(text))];
      var tail := outs[3..];
      assert outs == head + tail;
      CountConcat(head, tail, IsTypingStart);
      CountConcat(head, tail, IsTypingStop);
      CountThree(head, IsTypingStart);
      CountThree(head, IsTypingStop);
      CountTwo(tail, IsTypingStart);
      CountTwo(tail, IsTypingStop);
      assert outs[3].TypingCleared? || outs[4].TypingCleared?;
    } else {
      CountTwo(outs, IsTypingStart);
      CountTwo(outs, IsTypingStop);
    }
  }

  lemma CountThree(s: seq<Output>, p: Output -> bool)
    requires |s| == 3
    ensures Count(s, p) == (if p(s[0]) then 1 else 0) + (if p(s[1]) then 1 else 0) + (if p(s[2]) then 1 else 0)
  {
    assert s == [s[0]] + ([s[1]] + ([s[2]] + []));
    CountCons(s[0], [s[1]] + ([s[2]] + []), p);
    CountCons(s[1], [s[2]] + [], p);
    CountCons(s[2], [], p);
  }

  lemma CountTwo(s: seq<Output>, p: Output -> bool)
    requires |s| <= 2
    ensures Count(s, p) == (if |s| > 0 && p(s[0]) then 1 else 0) + (if |s| > 1 && p(s[1]) then 1 else 0)
  {
    if |s| == 2 {
      assert s == [s[0]] + ([s[1]] + []);
      CountCons(s[0], [s[1]] + [], p);
      CountCons(s[1], [], p);
    } else if |s| == 1 {
      assert s == [s[0]] + [];
      CountCons(s[0], [], p);
    }
  }
}
