/**
 * The strings the handlers build: command arguments, the `/gen` type-choice
 * buttons, the prompts handed to the Solana agent, the Pinata gateway URL and
 * the NFT metadata object uploaded for a new collection.
 */
module Prompts {
  import opened Basics
  import opened JsText
  import opened Telegram
  import UriComponent

  /** `text.replace("/" + command, "").trim()`: the argument of a command message. */
  function CommandArgument(text: string, command: string): (r: string)
    ensures |r| <= |text|
  {
    Trim(ReplaceFirst(text, "/" + command, ""))
  }

  /**
   * For a message that Telegraf routed to `command`, the argument is the rest of
   * the text after `/command`, trimmed; it is empty exactly when that rest is
   * all whitespace.
   */
  lemma CommandArgumentOfCommand(text: string, command: string)
    requires CommandOf(text) == Some(command)
    ensures CommandArgument(text, command) == Trim(text[1 + |command|..])
    ensures CommandArgument(text, command) == [] <==> AllWhitespace(text[1 + |command|..])
  {
    ReplaceLeadingPrefix(text, "/" + command);
  }

  /** The argument of `/command` followed by whitespace-padded text is that text without its padding. */
  lemma ArgumentOfPadded(command: string, front: string, core: string, back: string)
    requires AllWhitespace(front) && AllWhitespace(back)
    requires core != [] && !IsWhitespace(core[0]) && !IsWhitespace(core[|core| - 1])
    ensures CommandArgument("/" + command + front + core + back, command) == core
  {
    var p := "/" + command;
    var t := p + front + core + back;
    assert t[..|p|] == p;
    ReplaceLeadingPrefix(t, p);
    assert t[|p|..] == front + core + back;
    TrimOfPadded(front, core, back);
  }

  /** `/gen A cat ` asks about the prompt `A cat`. */
  lemma GenArgumentExample()
    ensures CommandArgument("/gen A cat ", "gen") == "A cat"
  {
    assert "/gen A cat " == "/" + "gen" + " " + "A cat" + " ";
    ArgumentOfPadded("gen", " ", "A cat", " ");
  }

  /** `/gen` with nothing after it has an empty argument and gets the usage reply. */
  lemma GenWithoutArgument()
    ensures CommandArgument("/gen", "gen") == []
  {
    assert StartsWith("/gen", "/gen");
    ReplaceLeadingPrefix("/gen", "/gen");
  }

  const StandardPrefix: string := "genstandard:"
  const TransparentPrefix: string := "gentransparent:"

  /** The two image-type buttons of `/gen`: the prompt travels percent-encoded in the callback data. */
  function GenButtons(prompt: string): (k: Keyboard)
    ensures |k| == 1 && |k[0]| == 2
  {
    [[Button("Standard", StandardPrefix + UriComponent.Encode(prompt)),
      Button("Transparent BG", TransparentPrefix + UriComponent.Encode(prompt))]]
  }

  /** The longest encoded prompt whose buttons Telegram accepts; the `gentransparent:` payload is the longer one. */
  const MaxEncodedPrompt: nat := CallbackDataLimit - |TransparentPrefix|

  /**
   * Telegram accepts the `/gen` buttons exactly when the encoded prompt is at
   * most 49 characters, so no prompt longer than that gets them.
   */
  lemma GenButtonsFitIff(prompt: string)
    requires prompt != []
    ensures KeyboardFits(GenButtons(prompt)) <==> |UriComponent.Encode(prompt)| <= MaxEncodedPrompt
    ensures |prompt| > MaxEncodedPrompt ==> !KeyboardFits(GenButtons(prompt))
  {
    var e := UriComponent.Encode(prompt);
    GenPrefixesAscii();
    AsciiPayload(StandardPrefix, e);
    AsciiPayload(TransparentPrefix, e);
    var k := GenButtons(prompt);
    if KeyboardFits(k) {
      assert FitsCallbackData(k[0][1].data);
    }
  }

  /** `/gen A cat ` is a `/gen` command whose prompt fits the callback data. */
  lemma GenPromptFitsExample()
    ensures CommandOf("/gen A cat ") == Some("gen")
    ensures CommandArgument("/gen A cat ", "gen") == "A cat"
    ensures |UriComponent.Encode("A cat")| <= MaxEncodedPrompt
  {
    assert "/gen A cat " == "/" + "gen" + " A cat ";
    CommandOfPrefixed("gen", " A cat ");
    GenArgumentExample();
  }

  /** `/gen` followed by fifty letters is a `/gen` command whose prompt overflows the callback data. */
  lemma GenPromptOverflowExample()
    ensures var prompt := seq(50, _ => 'a');
      && CommandOf("/gen " + prompt) == Some("gen")
      && CommandArgument("/gen " + prompt, "gen") == prompt
      && |UriComponent.Encode(prompt)| > MaxEncodedPrompt
  {
    var prompt: string := seq(50, _ => 'a');
    assert "/gen " + prompt == "/" + "gen" + (" " + prompt);
    CommandOfPrefixed("gen", " " + prompt);
    assert "/gen " + prompt == "/" + "gen" + " " + prompt + [];
    ArgumentOfPadded("gen", " ", prompt, []);
  }

  /** An ASCII prefix followed by an encoded payload takes one octet per character. */
  lemma AsciiPayload(prefix: string, e: string)
    requires forall i :: 0 <= i < |prefix| ==> (prefix[i] as int) < 0x80
    requires forall i :: 0 <= i < |e| ==> UriComponent.IsEncodedChar(e[i])
    ensures UriComponent.Utf8Size(prefix + e) == |prefix| + |e|
  {
    var d := prefix + e;
    forall i | 0 <= i < |d|
      ensures (d[i] as int) < 0x80
    {
      if i >= |prefix| {
        assert d[i] == e[i - |prefix|];
      }
    }
  }

  /** Both `/gen` payload prefixes are ASCII. */
  lemma GenPrefixesAscii()
    ensures forall i :: 0 <= i < |StandardPrefix| ==> (StandardPrefix[i] as int) < 0x80
    ensures forall i :: 0 <= i < |TransparentPrefix| ==> (TransparentPrefix[i] as int) < 0x80
  {
  }

  /** The prompt a `genstandard:`/`gentransparent:` press carries: the decoded capture, or failure (a `URIError`). */
  function PressedPrompt(data: string, prefix: string): (r: Option<Option<string>>)
    ensures r.Some? <==> Capture(data, prefix).Some?
  {
    match Capture(data, prefix)
    case None => None
    case Some(c) => Some(UriComponent.Decode(c))
  }

  /** Both buttons built by `/gen` for a non-empty prompt decode back to exactly that prompt. */
  lemma GenPayloadRoundTrip(prompt: string)
    requires prompt != []
    ensures PressedPrompt(GenButtons(prompt)[0][0].data, StandardPrefix) == Some(Some(prompt))
    ensures PressedPrompt(GenButtons(prompt)[0][1].data, TransparentPrefix) == Some(Some(prompt))
  {
    var e := UriComponent.Encode(prompt);
    EncodedIsPlain(e);
    CaptureOwnPrefix(StandardPrefix, e);
    CaptureOwnPrefix(TransparentPrefix, e);
    UriComponent.DecodeEncode(prompt);
  }

  /** Neither `/gen` button is picked up by the other image type's handler. */
  lemma GenPayloadsDisjoint(prompt: string)
    ensures Capture(GenButtons(prompt)[0][1].data, StandardPrefix) == None
    ensures Capture(GenButtons(prompt)[0][0].data, TransparentPrefix) == None
  {
    var e := UriComponent.Encode(prompt);
    EncodedIsPlain(e);
    assert IsHandlerPrefix(StandardPrefix);
    assert IsHandlerPrefix(TransparentPrefix);
    assert TransparentPrefix[|TransparentPrefix| - |StandardPrefix|..][0] == 't';
    CaptureOtherPrefix(TransparentPrefix, e, StandardPrefix);
    CaptureOtherPrefix(StandardPrefix, e, TransparentPrefix);
  }

  /** An encoded payload stays on one line and holds no `:`. */
  lemma EncodedIsPlain(e: string)
    requires forall i :: 0 <= i < |e| ==> UriComponent.IsEncodedChar(e[i])
    ensures forall i :: 0 <= i < |e| ==> !IsLineTerminator(e[i]) && e[i] != ':'
  {
  }

  /** The gateway URL Pinata uploads resolve to. */
  const GatewayPrefix: string := "https://gateway.pinata.cloud/ipf" + "s/"

  function PinataUrl(ipfsHash: string): (url: string)
    ensures url != []
    ensures StartsWith(url, GatewayPrefix)
  {
    GatewayPrefix + ipfsHash
  }

  /** Distinct IPFS hashes give distinct gateway URLs. */
  lemma PinataUrlInjective(a: string, b: string)
    requires PinataUrl(a) == PinataUrl(b)
    ensures a == b
  {
    assert a == PinataUrl(a)[|GatewayPrefix|..];
    assert b == PinataUrl(b)[|GatewayPrefix|..];
  }

  datatype Attribute = Attribute(traitType: string, value: string)

  /** The metadata JSON object uploaded for a new collection. */
  datatype NftMetadata = NftMetadata(
    name: string,
    symbol: string,
    description: string,
    image: string,
    attributes: seq<Attribute>)

  /** The collection metadata for an image: the prompt names it three times, with a fixed supply attribute. */
  function CollectionMetadata(prompt: string, imageUrl: string): (m: NftMetadata)
    ensures m.name == prompt && m.symbol == prompt && m.description == prompt
    ensures m.image == imageUrl
    ensures m.attributes == [Attribute("Total Supply", "1000000000")]
  {
    NftMetadata(prompt, prompt, prompt, imageUrl, [Attribute("Total Supply", "1000000000")])
  }

  const MintMarker: string := "\n\nMint this image as an NFT to " + "collection "
  const UrlMarker: string := " with the url: "

  /** The agent prompt for minting an image into an existing collection (canonical entry point). */
  function MintPrompt(prompt: string, address: string, url: string): (r: string)
    ensures StartsWith(r, prompt + MintMarker)
    ensures OccursAt(r, address + UrlMarker + url, |prompt| + |MintMarker|)
    ensures |r| == |prompt| + |MintMarker| + |address| + |UrlMarker| + |url|
  {
    var r := prompt + MintMarker + address + UrlMarker + url;
    assert r[..|prompt + MintMarker|] == prompt + MintMarker;
    assert r[|prompt| + |MintMarker|..] == address + UrlMarker + url;
    r
  }

  /**
   * For a fixed image, the mint prompt determines the collection address: two
   * different addresses never yield the same agent request.
   */
  lemma MintPromptDeterminesAddress(prompt: string, url: string, a: string, b: string)
    requires MintPrompt(prompt, a, url) == MintPrompt(prompt, b, url)
    ensures a == b
  {
    var ra := MintPrompt(prompt, a, url);
    var start := |prompt| + |MintMarker|;
    assert |a| == |b|;
    assert ra[start..start + |a|] == a;
    assert MintPrompt(prompt, b, url)[start..start + |b|] == b;
  }

  const CollectionPromptLead: string := "Please create an NFT collection " + "using this metadata URI: "

  /** The agent prompt of `create_collection`. */
  function CollectionAgentPrompt(metadataUri: string, prompt: string): (r: string)
    ensures StartsWith(r, CollectionPromptLead + metadataUri + "\nName: ")
  {
    var r := CollectionPromptLead + metadataUri + "\nName: " + prompt + "\nUse default values for all " + "other fields.";
    assert r[..|CollectionPromptLead + metadataUri + "\nName: "|] == CollectionPromptLead + metadataUri + "\nName: ";
    r
  }

  /** The agent prompt of the "using the metadata/uri from previous message" phrase: the lead of the collection prompt alone. */
  function MetadataUriAgentPrompt(metadataUri: string): (r: string)
    ensures StartsWith(CollectionAgentPrompt(metadataUri, ""), r)
  {
    var r := CollectionPromptLead + metadataUri;
    assert StartsWith(CollectionAgentPrompt(metadataUri, ""), CollectionPromptLead + metadataUri + "\nName: ");
    assert (CollectionPromptLead + metadataUri + "\nName: ")[..|r|] == r;
    r
  }

  const LegacyMintLead: string :=
    "I want to mint my image as an "
    + "NFT to an existing collection:\n"
    + "  - Collection address: "

  /**
   * The legacy agent prompt for minting into an existing collection: the
   * collection address, the image prompt and the image URL, each after its own
   * line label, then the fixed instructions.
   */
  function LegacyMintPrompt(address: string, prompt: string, url: string): (r: string)
    ensures StartsWith(r, LegacyMintLead)
    ensures OccursAt(r, address + LegacyMintNameLine, |LegacyMintLead|)
    ensures OccursAt(r, prompt + LegacyMintUrlLine, |LegacyMintLead| + |address| + |LegacyMintNameLine|)
    ensures OccursAt(r, url, |LegacyMintLead| + |address| + |LegacyMintNameLine| + |prompt| + |LegacyMintUrlLine|)
    ensures EndsWith(r, LegacyMintTail)
    ensures |r| == |LegacyMintLead| + |address| + |LegacyMintNameLine| + |prompt| + |LegacyMintUrlLine| + |url| + |LegacyMintTail|
  {
    LabelledLayout(LegacyMintLead, address, LegacyMintNameLine, prompt, LegacyMintUrlLine, url, LegacyMintTail);
    LegacyMintLead + address + LegacyMintNameLine + prompt + LegacyMintUrlLine + url + LegacyMintTail
  }

  /** Where each piece of a string built as `lead + x + l1 + y + l2 + z + tail` sits. */
  lemma LabelledLayout(lead: string, x: string, l1: string, y: string, l2: string, z: string, tail: string)
    ensures var r := lead + x + l1 + y + l2 + z + tail;
      && StartsWith(r, lead)
      && OccursAt(r, x + l1, |lead|)
      && OccursAt(r, y + l2, |lead| + |x| + |l1|)
      && OccursAt(r, z, |lead| + |x| + |l1| + |y| + |l2|)
      && EndsWith(r, tail)
  {
    var r := lead + x + l1 + y + l2 + z + tail;
    var a := |lead|;
    var b := a + |x| + |l1|;
    var c := b + |y| + |l2|;
    assert r[..a] == lead;
    assert r[a..b] == x + l1;
    assert r[b..c] == y + l2;
    assert r[c..c + |z|] == z;
    assert r[|r| - |tail|..] == tail;
  }

  const LegacyMintNameLine: string := "\n  - NFT name: Based on my " + "image prompt: \""
  const LegacyMintUrlLine: string := "\"\n  - Image URL: "
  const LegacyMintTail: string :=
    "\n  - Please use default values "
    + "for other parameters\n"
    + "  - Walk me through the process "
    + "step by step\n\n"
    + "  Please mint my NFT to this "
    + "collection using your tools. "
    + "Provide me with the transaction "
    + "details and NFT explorer link "
    + "when complete."

  /** The legacy mint prompt determines the collection address. */
  lemma LegacyMintPromptDeterminesAddress(prompt: string, url: string, a: string, b: string)
    requires LegacyMintPrompt(a, prompt, url) == LegacyMintPrompt(b, prompt, url)
    ensures a == b
  {
    var r := LegacyMintPrompt(a, prompt, url);
    assert |a| == |b|;
    SameSlotSameText(r, a, b, LegacyMintNameLine, |LegacyMintLead|);
  }

  /** Two strings of one length that occur at the same place, each followed by `t`, are equal. */
  lemma SameSlotSameText(r: string, x: string, y: string, t: string, i: nat)
    requires |x| == |y| && OccursAt(r, x + t, i) && OccursAt(r, y + t, i)
    ensures x == y
  {
    assert x == (x + t)[..|x|] == r[i..i + |x|];
    assert y == (y + t)[..|y|] == r[i..i + |y|];
  }

  const PumpLead: string :=
    "I want to launch a token on "
    + "Solana with the following "
    + "details:\n- Token name: Based on "
    + "my image prompt: \""

  /** The legacy `pump:` agent prompt: the image prompt comes right after the lead. */
  function PumpPrompt(prompt: string, url: string): (r: string)
    ensures OccursAt(r, prompt, |PumpLead|)
  {
    OccursBetween(PumpLead, prompt, PumpRest(url));
    PumpLead + prompt + PumpRest(url)
  }

  const PumpUrlLine: string := "\"\n- Image URL: "
  const PumpTail: string :=
    "\n- Please use default values "
    + "for other parameters like "
    + "supply (e.g. 1 million tokens)\n"
    + "- Walk me through the process "
    + "step by step\n\n"
    + "Please launch this token using "
    + "your tools and provide me with "
    + "the transaction details when "
    + "complete."

  function PumpRest(url: string): string {
    PumpUrlLine + url + PumpTail
  }

  const NewCollectionLead: string :=
    "I want to create a new NFT "
    + "collection on Solana and mint "
    + "my image as an NFT:\n"
    + "- Collection name: Based on my "
    + "image prompt: \""

  /** The legacy `newcol:` agent prompt: the image prompt comes right after the lead. */
  function NewCollectionPrompt(prompt: string, url: string): (r: string)
    ensures OccursAt(r, prompt, |NewCollectionLead|)
  {
    OccursBetween(NewCollectionLead, prompt, NewCollectionRest(prompt, url));
    NewCollectionLead + prompt + NewCollectionRest(prompt, url)
  }

  const NewCollectionNameLine: string := "\" Collection\n- NFT name: Based " + "on my image prompt: \""
  const NewCollectionUrlLine: string := "\"\n- Image URL: "
  const NewCollectionTail: string :=
    "\n- Please use default values "
    + "for royalties (e.g. 5%)\n"
    + "- Walk me through the process "
    + "step by step\n\n"
    + "Please create this collection "
    + "and mint my NFT using your "
    + "tools. Provide me with the "
    + "transaction details and NFT "
    + "explorer link when complete."

  function NewCollectionRest(prompt: string, url: string): string {
    NewCollectionNameLine + prompt + NewCollectionUrlLine + url + NewCollectionTail
  }
}
