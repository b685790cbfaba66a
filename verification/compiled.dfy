/**
 * The compiled entry point (dist/index.js): the menus, wallet actions and
 * `/gen` flow of the canonical one, with no session at all. Generated images
 * carry the "Launch on Pump" and "Mint to Collection" buttons, whose handlers
 * only announce that the feature is coming; every other text goes to the
 * agent.
 */
module Compiled {
  import opened Basics
  import opened JsText
  import opened Telegram
  import opened Prompts
  import opened ImageList
  import opened Effects
  import opened Handlers
  import UriComponent
  import Canonical

  /** The `bot.action` a callback press reaches: the first registered one whose string or pattern matches. */
  datatype PressRoute =
    | MenuRoute(action: string)
    | GenRoute(capture: string, transparent: bool)
    | WalletRoute(action: string)
    | PumpRoute(imageId: string)
    | MintRoute(imageId: string)
    | NoRoute

  function RouteOf(data: string): PressRoute {
    if data in MenuActions then MenuRoute(data)
    else if Capture(data, StandardPrefix).Some? then GenRoute(Capture(data, StandardPrefix).value, false)
    else if Capture(data, TransparentPrefix).Some? then GenRoute(Capture(data, TransparentPrefix).value, true)
    else if data in WalletActions then WalletRoute(data)
    else if Capture(data, PumpPrefix).Some? then PumpRoute(Capture(data, PumpPrefix).value)
    else if Capture(data, MintPrefix).Some? then MintRoute(Capture(data, MintPrefix).value)
    else NoRoute
  }

  /** Both image types are captioned alike and carry the Pump and mint buttons. */
  const CompiledPhoto: PhotoStyle := PumpMintPhoto(ImageCaptionLead)

  const PumpSoonText: string := "Pump launch feature coming soon!"
  const MintSoonText: string := "NFT minting feature coming soon!"

  function OnPress(data: string, o: Oracle): seq<Output> {
    match RouteOf(data)
    case MenuRoute(action) => MenuPressed(action, o)
    case GenRoute(capture, transparent) => GenPressed(capture, transparent, CompiledPhoto, o)
    case WalletRoute(action) => WalletAction(action)
    case PumpRoute(_) => [Reply(PumpSoonText, BackToMenu)]
    case MintRoute(_) => [Reply(MintSoonText, BackToMenu)]
    case NoRoute => []
  }

  /** Text goes to `/start`, then `/gen`, then the agent fallback, which ignores slash text. */
  function OnText(text: string, o: Oracle): seq<Output> {
    var command := CommandOf(text);
    if command == Some("start") then Start()
    else if command == Some("gen") then GenCommand(text)
    else AgentFallback(text, o)
  }

  /** One update of the compiled entry point; it keeps nothing between updates. */
  function CompiledStep(u: Update, o: Oracle): seq<Output> {
    match u
    case Text(_, text) => OnText(text, o)
    case Press(_, data) => OnPress(data, o)
  }

  // --------------------------------------------------------------- routing

  /** Every button the compiled bot builds reaches the handler it was built for, with the payload it carries. */
  lemma CompiledButtonsRouteHome(id: string)
    requires IsPlainId(id)
    ensures RouteOf(StandardPrefix + id) == GenRoute(id, false)
    ensures RouteOf(TransparentPrefix + id) == GenRoute(id, true)
    ensures RouteOf(PumpPrefix + id) == PumpRoute(id)
    ensures RouteOf(MintPrefix + id) == MintRoute(id)
  {
    assert IsHandlerPrefix(StandardPrefix) && IsHandlerPrefix(TransparentPrefix);
    assert IsHandlerPrefix(PumpPrefix) && IsHandlerPrefix(MintPrefix);
    assert StandardPrefix[0] == 'g' && PumpPrefix[0] == 'p' && MintPrefix[0] == 'm';
    PrefixedDataIsNotExact(StandardPrefix, id);
    PrefixedDataIsNotExact(TransparentPrefix, id);
    PrefixedDataIsNotExact(PumpPrefix, id);
    PrefixedDataIsNotExact(MintPrefix, id);
    CaptureOwnPrefix(StandardPrefix, id);
    CaptureOwnPrefix(TransparentPrefix, id);
    CaptureOwnPrefix(PumpPrefix, id);
    CaptureOwnPrefix(MintPrefix, id);
    assert TransparentPrefix[3] == 't';
    CaptureMissesOther(TransparentPrefix, id, StandardPrefix);
    CaptureMissesOther(PumpPrefix, id, StandardPrefix);
    CaptureMissesOther(PumpPrefix, id, TransparentPrefix);
    CaptureMissesOther(MintPrefix, id, StandardPrefix);
    CaptureMissesOther(MintPrefix, id, TransparentPrefix);
    CaptureMissesOther(MintPrefix, id, PumpPrefix);
  }

  /**
   * `/gen` end to end: the question's buttons make exactly the prompt the
   * command carried, standard or transparent, captioned alike.
   */
  lemma CompiledGenRoundTrip(text: string, o: Oracle)
    requires CommandOf(text) == Some("gen") && CommandArgument(text, "gen") != []
    requires |UriComponent.Encode(CommandArgument(text, "gen"))| <= MaxEncodedPrompt
    ensures var prompt := CommandArgument(text, "gen");
      var k := GenButtons(prompt);
      && OnText(text, o) == [Reply(TypeQuestion(prompt), k)]
      && OnPress(k[0][0].data, o) == Generation(prompt, false, StandardStatus, CompiledPhoto, o)
      && OnPress(k[0][1].data, o) == Generation(prompt, true, TransparentStatus, CompiledPhoto, o)
  {
    var prompt := CommandArgument(text, "gen");
    var e := UriComponent.Encode(prompt);
    GenButtonsFitIff(prompt);
    EncodedIsPlain(e);
    UriComponent.DecodeEncode(prompt);
    GenButtonsReachGeneration(e, o);
  }

  /** A `/gen` button press reaches the generation handler with the encoded prompt. */
  lemma GenButtonsReachGeneration(e: string, o: Oracle)
    requires IsPlainId(e)
    ensures OnPress(StandardPrefix + e, o) == GenPressed(e, false, CompiledPhoto, o)
    ensures OnPress(TransparentPrefix + e, o) == GenPressed(e, true, CompiledPhoto, o)
  {
    CompiledButtonsRouteHome(e);
  }

  /**
   * The two buttons under a generated image are stubs: each answers with its
   * "coming soon" text and the way back to the menu, and calls no
   * collaborator.
   */
  lemma ImageButtonsAreStubs(image: StoredImage, o: Oracle)
    requires IsPlainId(image.id)
    ensures OnPress(PhotoButtons(CompiledPhoto, image)[0][0].data, o) == [Reply(PumpSoonText, BackToMenu)]
    ensures OnPress(PhotoButtons(CompiledPhoto, image)[0][1].data, o) == [Reply(MintSoonText, BackToMenu)]
    ensures CollaboratorCalls(OnPress(PhotoButtons(CompiledPhoto, image)[0][0].data, o)) == 0
    ensures CollaboratorCalls(OnPress(PhotoButtons(CompiledPhoto, image)[0][1].data, o)) == 0
  {
    CompiledButtonsRouteHome(image.id);
    CountTwo([Reply(PumpSoonText, BackToMenu)], (x: Output) => x.Invoke?);
    CountTwo([Reply(MintSoonText, BackToMenu)], (x: Output) => x.Invoke?);
  }

  /** No button press of the compiled entry point reaches the agent. */
  lemma PressesNeverAskAgent(data: string, o: Oracle)
    ensures AgentCalls(OnPress(data, o)) == 0
  {
    var route := RouteOf(data);
    if route.GenRoute? && UriComponent.Decode(route.capture).Some? {
      var t := route.transparent;
      GenerationOutcome(UriComponent.Decode(route.capture).value, t, if t then TransparentStatus else StandardStatus, CompiledPhoto, o);
    }
  }

  // ------------------------------------------------ agreement with src/

  /** A menu press answers as in the canonical entry point, whatever the canonical session holds. */
  lemma MenuAgrees(store: Canonical.Store, user: UserId, action: string, o: Oracle)
    requires action in MenuActions
    ensures OnPress(action, o) == Canonical.PressStep(store, user, action, o).outputs
  {
  }

  /**
   * A text message answers as in the canonical entry point for a user with
   * nothing pending who does not use the metadata phrase: the two differ only
   * in what the canonical one keeps in its session.
   */
  lemma TextAgrees(store: Canonical.Store, user: UserId, text: string, o: Oracle)
    requires Canonical.SessionOf(store, user).pending == Canonical.Idle
    requires !Canonical.MetadataPhrase(text)
    ensures OnText(text, o) == Canonical.TextStep(store, user, text, o).outputs
  {
  }
}
