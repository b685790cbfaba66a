# send-nft-bot: a verified model of the Telegram routers

The bot turns Telegram updates (text messages and inline-button presses) into
replies and into calls to its collaborators: the image model and its storage,
the Supabase image table, Privy wallets, Pinata and the Solana agent. This
project models the parts of the repository that hold its own logic:

- **Three routers, kept apart.** The repository has three entry points that
  disagree with each other, so each one is modelled on its own:
  - `Canonical` models `src/index.ts`: `/start`, `/gen` and its two
    image-type buttons, the main menu, wallet actions, `view_images`,
    `create_collection` with its status-message lifecycle, `mint_specific` and
    its cancel button, the pending-address continuation, the metadata-URI
    phrase, and the agent fallback.
  - `Legacy` models `index.js`: `/start`, `/help`, `/generate`,
    `/transparent`, `/myimages`, the text router with its
    `pendingMintImageId` continuation and keyword routing, and the
    `pump:`, `mint:`, `newcol:` and `existcol:` buttons.
  - `Compiled` models `dist/index.js`: the earlier router with no session,
    whose `pump:` and `mint:` buttons are stubs.
  - The two address checks differ. `src/index.ts` checks `^\w{32,44}$` and
    re-prompts on a mismatch. `index.js` checks the base-58 pattern, and on a
    mismatch it falls through to normal text routing.
- **The session store is an explicit map.** It maps the sender's user id
  (`ctx.from.id`, the id the handlers read) to that user's session. A step is a pure function
  `Step(store, update, oracle) -> (store', outputs)`.
  - The canonical session holds a `PendingAction` (`Idle` or
    `AwaitingCollectionAddress(imageId)`) and the last metadata URI.
  - The legacy session holds the pending image id.
- **Collaborator answers are inputs.** The `Oracle` record carries them: the
  image rows, the looked-up image, the agent's reply, the delegation flag, the
  generated image, the Pinata hashes, and which Telegram request, if any,
  fails. An output list records every call made to a collaborator, so
  contracts can count agent calls and replies.
- **Shared pieces.**
  - `Handlers`: the handlers the entry points share (menu, `/gen`, image
    generation, agent fallback).
  - `Telegram`: command and callback-data matching, and the wallet menu.
  - `JsText`: the JavaScript string operations the handlers use.
  - `Addresses`: the two collection-address validators.
  - `UriComponent`: `encodeURIComponent` and `decodeURIComponent`.
  - `ImageList`: the five-entry listing of stored images.
  - `Prompts`: prompts, button payloads and NFT metadata.
  - `Effects`: outputs and counting.
- **Agent utilities.**
  - `HexSignature`: the hex-signature decoder of the Privy `signMessage`
    adapter, with JavaScript's UTF-16 code units, `/.{1,2}/g`,
    `parseInt(_, 16)` and the `Uint8Array` conversion written out.
  - `ToolCalls`: how the agent wrapper's tool-call loop builds the answer
    text: the "Unable to find tool" note, the action-error and
    follow-up-error notes, and a follow-up answer replacing the text.

The bot's fixed messages are spelled out character for character. Long ones
are written as `+`-joined pieces of at most 32 characters; the joined string
is the source's.

Telegram accepts callback data of at most 64 bytes. `/gen` puts the
percent-encoded prompt after `gentransparent:` (15 bytes), so a prompt whose
encoding is longer than 49 characters gets no buttons: Telegram rejects the
reply and the user sees the `bot.catch` apology. The model's `/gen` answers
so (`Handlers.GenCommandAnswers`).

## Model

| member | source | states |
|---|---|---|
| Canonical.CanonicalStep | src/index.ts:63-67 | One update changes at most the sender's session; every other user's session is left as it was |
| Canonical.Commit | src/index.ts:625 | Writing a handler's session back stores it for that user only, and keeps the handler's outputs |
| Canonical.ButtonsRouteHome | src/index.ts:241-625 | Each regex action's button data reaches its own handler with the id it carries; no earlier-registered handler captures it |
| Canonical.ColonFreeRoutesExactly | src/index.ts:98-649 | Callback data without a colon is routed only by the exact-match actions, and unknown data reaches no handler |
| Canonical.CancelRoutesHome | src/index.ts:641 | `cancel_mint_specific` reaches the cancel handler |
| Canonical.MintSpecificArms | src/index.ts:619-638 | Pressing "Mint to Specific Collection" on image X sets the pending action to awaiting an address for X, whatever was pending before; one reply with the Cancel button; no collaborator call |
| Canonical.CancelDisarms | src/index.ts:641-649 | Cancel resets the pending action to Idle, replies once, and calls no collaborator |
| Canonical.InvalidAddressReprompts | src/index.ts:656-660 | While awaiting, text whose trimmed form fails `^\w{32,44}$` leaves the store unchanged and gets exactly one re-prompt |
| Canonical.FetchFailureKeepsWaiting | src/index.ts:661 | While awaiting, a failed image fetch ends in the catch reply and leaves the address still awaited |
| Canonical.MissingImageDisarms | src/index.ts:661-671 | While awaiting, a valid address for an image the user does not own clears the pending action, replies "Image not found." and makes no agent call |
| Canonical.ContinuationMints | src/index.ts:672-680 | The continuation for the user's image clears the pending action and asks the agent to mint that image's prompt and URL at the trimmed address |
| Canonical.FoundImageMints | src/index.ts:652-680 | Through the router, a valid address for a found image gives exactly one agent call with the mint prompt, then one reply, with the pending action cleared |
| Canonical.MintAnswerCounts | src/index.ts:672-680 | A fetch, an agent call and a reply make one agent call and one reply |
| Canonical.AwaitingTextContinues | src/index.ts:652-653 | While awaiting, every text other than `/start` and `/gen` goes to the continuation |
| Canonical.CommandsComeFirst | src/index.ts:70-238 | `/start` and `/gen` answer whatever the session holds and leave the store unchanged |
| Canonical.SlashCommandCapturedWhileAwaiting | src/index.ts:652-660 | While awaiting, any other slash command is taken by the continuation and re-prompted as an invalid address |
| Canonical.SlashTextIgnoredWhenIdle | src/index.ts:716-718 | With nothing pending, slash text that is not `/start`, `/gen` or the metadata phrase gets no answer |
| Canonical.PlainTextToAgentWhenIdle | src/index.ts:711-746 | With nothing pending, plain text that is not the phrase goes to the agent fallback and gets exactly one reply |
| Canonical.MetadataPhraseUsesRememberedUri | src/index.ts:684-705 | The metadata phrase sends the remembered URI to the agent, or explains that there is none; the store is unchanged |
| Canonical.GenButtonsReachGeneration | src/index.ts:241-249 | A `genstandard:`/`gentransparent:` press reaches generation with the captured payload, whatever the session holds |
| Canonical.GenRoundTrip | src/index.ts:212-249 | For a prompt whose encoding fits the callback data, `/gen prompt` asks with two buttons; pressing either generates exactly that prompt, standard or transparent |
| Canonical.LongGenPromptApologises | src/index.ts:212-238 | A `/gen` prompt whose encoding overflows the callback data gets only the `bot.catch` apology, and the store is unchanged |
| Canonical.CreateCollectionLifecycle | src/index.ts:559-615 | For an owned image: at most one status message is on screen at any time; exactly one reply; on failure the error reply, and every status message left on screen is one whose deletion was attempted; on success none is left |
| Canonical.CreateCollectionWithoutImage | src/index.ts:546-556 | A missing image gets "Image not found."; a failed fetch gets the error reply; the session is unchanged either way |
| Canonical.CreateCollectionRemembersUri | src/index.ts:588 | The session remembers the metadata URI exactly when the metadata upload succeeded, as its gateway URL; the pending action is untouched |
| Canonical.CreateCollectionRequests | src/index.ts:571-593 | The pinned metadata takes name, symbol and description from the image prompt and points at the pinned image; the agent is asked to create the collection from the metadata URI |
| Canonical.PendingChangesOnlyThere | src/index.ts:619-680 | Only the mint-specific press, Cancel, and a continuation with a valid address and a successful fetch change the pending action |
| Canonical.UriChangesOnlyThere | src/index.ts:588 | Only a collection creation changes the remembered metadata URI |
| Canonical.FreshContextStep | src/index.ts:63-67 | As written: each update starts from an empty session |
| Canonical.AsWrittenAddressIsNotMinted | src/index.ts:63-67 | As written: after "Mint to Specific Collection", the address the user sends goes to the agent fallback and never produces the mint request |
| Canonical.AsWrittenUriIsForgotten | src/index.ts:63-67 | As written: the metadata phrase always gets the "no metadata URI" answer |
| Canonical.FallbackNeverMints | src/index.ts:711-746 | The fallback sends an address to the agent as it is, never as a mint prompt |
| Canonical.IdleWordTextToAgent | src/index.ts:711-746 | With nothing pending, a word-character address goes to the fallback |
| Canonical.WordAddressIsNoCommand | src/index.ts:658 | Text whose trimmed form passes `\w{32,44}` is not a command |
| Canonical.WordTextIsNoPhrase | src/index.ts:684 | Word-character text is never the metadata phrase |
| Canonical.PendingMintCompletes | src/index.ts:619-680 | With the session persisted: press, then a valid address for an owned image, gives the mint request for that image at that address and clears the pending action |
| Canonical.CreatePressStep | src/index.ts:540-616 | A "Create NFT Collection" press leaves, in the presser's stored session, exactly what the creation handler produced |
| Canonical.PinnedUriIsReused | src/index.ts:588-705 | With the session persisted: after a creation that pinned its metadata, the phrase hands that metadata URI to the agent |
| Handlers.ViewImagesAnswer | src/index.ts:130-168 | One fetch and one reply; the reply is a listing exactly when images were found, and it then carries the count line exactly when there are more than five; a null result is answered like an empty one |
| Handlers.NotAListing | src/index.ts:139-147 | The "no images" and error replies never open with the listing header |
| Handlers.PrefixedDataIsNotExact | src/index.ts:98-537 | Button data built on an image-handler prefix is none of the exact-match menu or wallet actions |
| Handlers.PhotoButtonsCarryId | src/index.ts:296-305 | Each button under a generated image captures the image id under its own prefix and nothing under the other |
| Handlers.GenerationOutcome | src/index.ts:241-316 | Generation asks the image model once, for exactly that prompt and background; the photo is sent exactly when it is delivered; the flow ends with the error reply exactly when a step failed |
| Handlers.GenerationStatus | src/index.ts:249-315 | On success no status message is left on screen; on a failure after the status went out, it stays on screen |
| Handlers.GenCommandAnswers | src/index.ts:212-238 | `/gen` with a prompt offers the two buttons exactly when the encoded prompt is at most 49 characters; otherwise the only answer is the `bot.catch` apology |
| Handlers.GenCommandThenPress | src/index.ts:212-243 | For `/gen` with a non-empty argument whose encoding fits the callback data, both buttons decode back to exactly that argument |
| Handlers.AgentFallbackIgnoresSlash | dist/index.js:406-408 | The fallback ignores exactly the text that starts with "/" |
| Handlers.AgentFallbackAnswersOnce | dist/index.js:402-432 | Every text the fallback does not ignore gets exactly one reply, and the agent is asked at most once, with the text unchanged |
| Handlers.AgentFallbackClearsTyping | dist/index.js:410-431 | The typing indicator is started at most once, and it is cleared after it on success and on failure alike |
| Legacy.LegacyStep | index.js:43-46 | One update changes at most the sender's pending id |
| Legacy.Commit | index.js:475 | Writing the pending id back stores it for that user only |
| Legacy.CommitUnchanged | index.js:228-345 | A handler that keeps the pending id leaves the store as it was |
| Legacy.LegacyButtonsRouteHome | index.js:348-482 | `pump:`, `mint:`, `newcol:` and `existcol:` data reach their own handlers with the id they carry |
| Legacy.ImageButtonsChain | index.js:393-415 | The buttons under a generated image and the NFT options lead to the pump, mint, new-collection and existing-collection handlers with the same image id |
| Legacy.NftOptions | index.js:401-408 | The mint options are two one-button rows |
| Legacy.ImageButtonsPressed | index.js:348-462 | `pump:X` and `newcol:X` run the image task for X; `mint:X` only offers the two collection choices; none changes the store |
| Legacy.ExistingCollectionArms | index.js:465-482 | `existcol:X` sets the pending id to X, asks for the address, and calls no collaborator |
| Legacy.ImageTaskAnswers | index.js:348-391 | An image task announces itself and fetches the image; a missing image gets the "could not find" reply and no agent call; a found one gets exactly one agent call and its Markdown reply |
| Legacy.TaskAnswerCounts | index.js:363-384 | The task's answer is one reply, with one agent call exactly when the image was found |
| Legacy.AgentAnswerCounts | index.js:378-384 | Asking the agent makes one agent call and one reply |
| Legacy.PumpRequest | index.js:363-375 | The Pump request exists exactly when the image was found, and it embeds the image prompt |
| Legacy.NewCollectionRequest | index.js:433-446 | The collection request exists exactly when the image was found, and it embeds the image prompt |
| Legacy.MintRequest | index.js:255-268 | The mint request exists exactly when the image was found, and it carries the collection address, the image's prompt and its URL, each after its own label |
| Legacy.Base58TextIsNoSlash | index.js:242 | Text whose trimmed form is a base-58 address neither starts with "/" nor is a command |
| Legacy.ValidAddressMints | index.js:233-279 | With an image pending, a base-58 address clears the pending id and runs the mint task for that image at the trimmed address |
| Legacy.InvalidAddressFallsThrough | index.js:233-245 | With an image pending, other plain text still clears the pending id, and is then routed as if nothing had been pending |
| Legacy.SlashTextKeepsPending | index.js:230 | Slash text that is none of the five commands is dropped before the pending id is consulted, so the pending id survives it |
| Legacy.IdleTextIsNormal | index.js:283-299 | With nothing pending, plain text takes normal routing: the agent on a keyword, otherwise image generation from the text |
| Legacy.NormalTextIff | index.js:283-299 | The agent is asked about the text exactly when it mentions a keyword; otherwise the text is an image prompt; no other collaborator is called |
| Legacy.KeywordTestIgnoresCase | index.js:283-288 | The keyword test gives the same answer for text and its lower-cased form |
| Legacy.LowerIdempotent | index.js:283 | Lower-casing twice is lower-casing once |
| Legacy.GenerateCommands | index.js:83-191 | `/generate` and `/transparent` give the usage reply for an empty argument, and otherwise generate the trimmed argument with the right background |
| Legacy.GenerateCommandStep | index.js:83-191 | The two commands are answered before the text router and leave the store unchanged |
| Legacy.GenerateRoutes | index.js:83-191 | `/generate` and `/transparent` each reach their own command handler, whatever image id is pending |
| Legacy.GenerateArgument | index.js:85-90 | The prompt is the text after the command, trimmed; whitespace only gets the usage reply |
| Legacy.MyImagesAnswer | index.js:194-225 | One fetch and one reply; an error reply exactly when the fetch failed; the same listing as `view_images` exactly when images were found |
| Legacy.FreshTextStep | index.js:43-46 | As written: a text update starts with nothing pending |
| Legacy.FreshPressStep | index.js:43-46 | As written: a button update starts with nothing pending |
| Legacy.FreshAddressIsNormal | index.js:43-46 | As written: an address arrives with nothing pending and takes normal routing, so without a keyword it is generated as an image prompt |
| Legacy.NormalTextNeverMints | index.js:283-299 | Normal routing never sends the mint request |
| Legacy.AsWrittenAddressIsNotMinted | index.js:43-46 | As written: after `existcol:X`, the address the user sends never produces the mint request |
| Legacy.ExistingCollectionCompletes | index.js:465-482 | With the store persisted: `existcol:X` and then a base-58 address produce the mint request for X at that address, and clear the pending id |
| Legacy.FoundImageMints | index.js:246-279 | For a found image, the mint task announces itself, fetches the image, and asks the agent once with the mint prompt |
| Compiled.CompiledButtonsRouteHome | dist/index.js:161-400 | `genstandard:`, `gentransparent:`, `pump:` and `mint:` data reach their own handlers with the id they carry |
| Compiled.GenButtonsReachGeneration | dist/index.js:161-163 | A generation press decodes the payload and generates it |
| Compiled.CompiledGenRoundTrip | dist/index.js:145-163 | For a prompt whose encoding fits the callback data, `/gen prompt` asks with two buttons; pressing either generates exactly that prompt |
| Compiled.ImageButtonsAreStubs | dist/index.js:372-400 | The `pump:` and `mint:` buttons only answer "coming soon" with the back button, and call no collaborator |
| Compiled.PressesNeverAskAgent | dist/index.js:60-400 | No button press asks the agent |
| Compiled.MenuAgrees | dist/index.js:60-143 | The menu buttons answer as they do in `src/index.ts` |
| Compiled.TextAgrees | dist/index.js:402-432 | With nothing pending, text other than the phrase is answered as in `src/index.ts` |
| Telegram.CommandOf | src/index.ts:212 | A command is "/" followed by a maximal non-empty run of word characters |
| Telegram.CommandOfPrefixed | src/index.ts:212 | "/name" followed by a non-word character or by nothing is the command `name` |
| Telegram.Capture | src/index.ts:241 | A `/prefix(.+)/` capture is non-empty and holds no line terminator |
| Telegram.CaptureOwnPrefix | src/index.ts:243 | Data built as prefix + id captures exactly the id |
| Telegram.CaptureMissesOther | src/index.ts:540 | Data built on one handler prefix is not captured by a prefix it does not contain |
| Telegram.NoColonNoCapture | src/index.ts:540 | Data without a colon is captured by no prefix ending in a colon |
| Telegram.WalletMenuToggle | src/index.ts:118-122 | The menu offers "Revoke Server Session" exactly when the wallet is delegated, and "Enable Server Session" otherwise; the other rows do not depend on the flag |
| Telegram.NotInWalletMenu | dist/index.js:77-79 | The button for the other state is absent |
| Addresses.Base58CharIff | index.js:242 | A base-58 character is exactly a word character other than `_`, `0`, `O`, `I` and `l` |
| Addresses.Base58AddressIsWordAddress | index.js:242 | Every base-58 address passes the `\w{32,44}` check |
| Addresses.ValidatorsDisagreeIff | src/index.ts:658 | A `\w{32,44}` address fails the base-58 check exactly when it holds an excluded character |
| Addresses.UnderscoresPassWordCheckOnly | src/index.ts:658 | Thirty-two underscores pass one validator and fail the other |
| UriComponent.Encode | src/index.ts:229 | The encoding keeps the unreserved characters, escapes everything else, and writes only unreserved characters, `%` and upper-case hex |
| UriComponent.Decode | src/index.ts:243 | Text without `%` decodes to itself, and decoding never lengthens the text |
| UriComponent.DecodeEncode | src/index.ts:229-243 | Decoding the encoding of any string gives the string back |
| UriComponent.EscapeDecodes | src/index.ts:243 | The escapes written for any character decode back to it |
| UriComponent.Utf8Octets | src/index.ts:229-243 | A non-ASCII character's UTF-8 lead octet announces the sequence's length, the rest are continuation octets, and the scalar they encode is the character |
| UriComponent.ContinuationsRoundTrip | src/index.ts:229-243 | An escaped run of continuation octets reads back as those octets |
| UriComponent.TruncatedEscapeFails | src/index.ts:243 | A `%` without two hex digits after it makes decoding throw |
| UriComponent.StrayContinuationFails | src/index.ts:243 | A lone continuation octet makes decoding throw |
| UriComponent.OverlongFails | src/index.ts:243 | An overlong UTF-8 form makes decoding throw |
| Prompts.CommandArgumentOfCommand | src/index.ts:213 | The `/gen` argument is the trimmed text after the command, and it is empty exactly when that text is whitespace only |
| Prompts.ArgumentOfPadded | src/index.ts:213 | The argument of `/command` followed by whitespace-padded text is exactly that text without its padding |
| Prompts.GenArgumentExample | src/index.ts:213 | `/gen A cat ` has the argument `A cat` |
| Prompts.GenWithoutArgument | src/index.ts:213 | `/gen` alone has an empty argument |
| Prompts.GenPayloadRoundTrip | src/index.ts:224-243 | The payload of each image-type button decodes back to the prompt |
| Prompts.GenButtonsFitIff | src/index.ts:224-234 | Telegram's 64-byte limit accepts both `/gen` payloads exactly when the encoded prompt is at most 49 characters; a longer prompt never fits |
| Prompts.GenPromptFitsExample | src/index.ts:212-238 | `/gen A cat ` is a `/gen` command with prompt `A cat`, whose encoding fits the callback data |
| Prompts.GenPromptOverflowExample | src/index.ts:212-238 | `/gen` followed by fifty letters is a `/gen` command whose prompt's encoding overflows the callback data |
| Prompts.GenPayloadsDisjoint | src/index.ts:241-319 | The standard payload is not captured by the transparent handler, and the other way round |
| Prompts.EncodedIsPlain | src/index.ts:229 | An encoded payload holds no colon and no line terminator |
| Prompts.PinataUrl | src/index.ts:767 | A pinned hash's URL opens with the Pinata gateway |
| Prompts.PinataUrlInjective | src/index.ts:782 | Different hashes give different gateway URLs |
| Prompts.CollectionMetadata | src/index.ts:571-582 | Name, symbol and description are the image prompt; the image is the pinned URL; one supply attribute |
| Prompts.MintPrompt | src/index.ts:672 | The mint prompt opens with the image prompt and carries the address and URL at fixed places |
| Prompts.MintPromptDeterminesAddress | src/index.ts:672 | Mint prompts that differ only in the address differ |
| Prompts.CollectionAgentPrompt | src/index.ts:593 | The collection prompt opens with the metadata URI |
| Prompts.MetadataUriAgentPrompt | src/index.ts:696 | The phrase's agent prompt is the opening of the collection prompt for the same URI |
| Prompts.LegacyMintPrompt | index.js:261-268 | The legacy mint prompt opens with its lead, carries the collection address, the image prompt and the image URL each after its own line label, and ends with the fixed instructions |
| Prompts.LegacyMintPromptDeterminesAddress | index.js:261-268 | Legacy mint prompts that differ only in the address differ |
| Prompts.PumpPrompt | index.js:369-375 | The Pump prompt carries the image prompt right after its lead |
| Prompts.NewCollectionPrompt | index.js:439-446 | The collection prompt carries the image prompt right after its lead |
| ImageList.FindImage | src/index.ts:547 | The first image with the id, or none exactly when no image has it |
| ImageList.AppendEach | src/index.ts:150-157 | Appending each rendered entry in order, one `+=` at a time, gives the concatenated entries |
| ImageList.RenderList | src/index.ts:149-161 | The message built by `slice(0, 5)` and `forEach` is the listing |
| ImageList.ListShowsEntry | src/index.ts:150-157 | Image k of the first min(n, 5) appears as entry k + 1, right after the entries before it |
| ImageList.TrailerIff | src/index.ts:159-161 | The listing ends with the count line exactly when there are more than five images, and that line counts n - 5 |
| ImageList.CountLineShape | index.js:215-217 | The count line's number reads back as the hidden count |
| ImageList.OnlyFirstFiveShown | dist/index.js:98-106 | The listing depends only on the first five images and the total count |
| ImageList.JoinedSplit | src/index.ts:150-157 | The concatenated entries split around any position k, entry k numbered first + k, whatever renders one entry |
| HexSignature.HexDigitsDecode | src/utils/solana-agent.ts:44-49 | A hex-digit string decodes to ceil(n/2) bytes, byte i being the value of characters 2i and 2i + 1, or of the lone last digit |
| HexSignature.HexStringLength | dist/utils/solana-agent.js:35 | A hex-digit string decodes to ceil(n/2) bytes |
| HexSignature.HexRoundTrip | src/utils/solana-agent.ts:42-49 | Decoding the two-digit hex encoding of any byte sequence gives it back |
| HexSignature.SignatureBytes | src/utils/solana-agent.ts:42-51 | A byte signature is returned unchanged; a hex string gives ceil(n/2) bytes |
| HexSignature.EmptySignatureFallback | src/utils/solana-agent.ts:47 | The empty string has no match, so the fallback gives no bytes |
| HexSignature.ChunksOfPlainUnits | src/utils/solana-agent.ts:46 | Without line terminators, the matches of `/.{1,2}/g` are consecutive pairs, with a single unit last when the length is odd |
| HexSignature.NegativeChunkWraps | src/utils/solana-agent.ts:47 | `"-1"` reads as -1, and the byte array stores it as 255 |
| HexSignature.TrailingNonDigitIgnored | src/utils/solana-agent.ts:47 | `"1z"` reads as 1 |
| HexSignature.NoDigitIsZero | src/utils/solana-agent.ts:47 | A chunk with no hex digit is NaN, stored as 0 |
| HexSignature.LineTerminatorRestartsChunks | src/utils/solana-agent.ts:46 | A line feed splits the chunking: `"abc\nde"` gives the bytes AB, 0C, DE |
| ToolCalls.InitialContent | dist/utils/solana-agent.js:147 | An empty or missing first answer is replaced by the apology |
| ToolCalls.Apply | dist/utils/solana-agent.js:153-156 | A call naming an absent action appends the "Unable to find tool" note |
| ToolCalls.UnknownToolAppends | dist/utils/solana-agent.js:150-158 | An unknown tool's note lands after everything before it, and the later calls continue from there |
| ToolCalls.AppendOnlyKeepsContent | dist/utils/solana-agent.js:150-158 | Calls that only append never replace the content there already was |
| ToolCalls.UnknownToolsOnly | dist/utils/solana-agent.js:150-158 | A run of unknown tools appends one note per tool, in order |
| ToolCalls.RunConcat | dist/utils/solana-agent.js:150 | Processing two runs of calls is processing one after the other |
| JsText.Trim | src/index.ts:656 | The trimmed text has no whitespace at either end, and it is empty exactly when the text is whitespace only |
| JsText.TrimIdempotent | src/index.ts:656 | Trimming twice is trimming once |
| JsText.TrimOfPadded | index.js:234 | Trimming removes exactly the surrounding whitespace |
| JsText.IndexOf | src/index.ts:213 | The first occurrence at or after a position, or none exactly when there is no occurrence |
| JsText.ReplaceFirst | src/index.ts:213 | Replacing changes nothing when the pattern is absent; otherwise exactly the first occurrence is replaced and the text around it is kept |
| JsText.ReplaceLeadingPrefix | src/index.ts:213 | Removing a leading prefix leaves the rest |
| JsText.AsciiLowerString | index.js:283 | Lower-casing maps each character, and changes only the capitals |
| JsText.DecimalRoundTrip | src/index.ts:159 | The decimal digits of a count read back as the count |

## Left out

- Telegram transport:
  - `answerCbQuery` acknowledgements are not modelled; they neither answer the user nor change state.
  - Only the Telegram faults the properties need are modelled: the status messages, the final reply, the chat action and the callback-data limit of `/gen`. Any other failed request falls to the same `bot.catch` reply.
  - Image ids in button data are taken to fit Telegram's 64-byte limit, because they come from the image table.
  - The `!ctx.chat` guard in `dist/index.js` is not modelled.
- The bot launch, the health-check HTTP server and process signals are left out, because they are network plumbing.
- The image model, base64 buffers, file writes, the Supabase table and the Pinata uploads are not modelled. They are foreign services, so their answers arrive through the `Oracle`.
  - The `images` table is taken as `getUserImages` returns it. `NewestFirst` states its ordering, which is not otherwise used.
  - Lookup by id in `index.js` is not scoped to the user, and the model inherits this.
- The agent:
  - `processSolanaMessage` is treated as a function returning a string, because its LLM and tool orchestration belong to foreign SDKs.
  - The text accumulation of its tool-call loop is modelled in full. The tool and completion calls themselves arrive as `Outcome` values.
  - The 30-second timeout race is left out because it is a timer.
  - The typing interval is modelled as a start event and a clear event, because the interval itself is a timer.
- The wallet actions (`wallet:create`, `view`, `export`, `delegate`, `revoke`) are modelled as one opaque collaborator call each. Their replies come from the Privy wrapper.
- `Legacy.OnPress`: the error replies of the catch blocks in `pump:` and `newcol:` are not modelled, because they quote `error.message`. A failed lookup is modelled as the "could not find the image data" reply.
- Legacy faults are not modelled, except inside image generation.
- `JsText.AsciiLowerString`: `toLowerCase` is modelled for ASCII only, because the keywords are ASCII. Non-ASCII case mappings (for example the Kelvin sign) are not modelled.
- `Telegram.CommandOf`: the Telegram `bot_command` entity is approximated as a maximal run of `[A-Za-z0-9_]` after a leading "/". `@botname` suffixes and the 32-character limit are not modelled.
- `config.js`, the module-loading workarounds and the Privy and Supabase wrappers are not part of this model.

## Findings

| source | as written | input that shows it | evidently intended | confidence | as-written member | corrected member |
|---|---|---|---|---|---|---|
| src/index.ts:63-67 | The middleware gives every update `ctx.session \|\| {}`. Telegraf builds a new context per update, and no session store is installed, so nothing written to the session survives the update. | Press `mint_specific:X`, then send a 32-character `\w` address: the address reaches the agent fallback and X is never minted. A pinned metadata URI is likewise forgotten by the phrase message. | The session persists per user across updates: the address continues the pending mint, and the phrase reuses the pinned URI. | not executed | Canonical.AsWrittenAddressIsNotMinted | Canonical.PendingMintCompletes |
| index.js:43-46 | The same per-update session bag, so `pendingMintImageId` set by `existcol:X` is gone when the address arrives. | Press `existcol:X`, then send a base-58 address without a keyword, such as 32 `1`s: it is sent to the image model as a prompt, and the mint request is never sent. | The pending image id persists per user until the address arrives. | not executed | Legacy.AsWrittenAddressIsNotMinted | Legacy.ExistingCollectionCompletes |
