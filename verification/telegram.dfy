/**
 * The slice of the Telegram/Telegraf surface the bot's routers see: updates,
 * inline keyboards, command recognition and the `bot.action(/prefix:(.+)/)`
 * capture, plus the keyboards every router shares.
 */
module Telegram {
  import opened Basics
  import opened JsText
  import UriComponent

  /** `ctx.from.id.toString()`. */
  type UserId = string

  /** `Markup.button.callback(label, data)`. */
  datatype Button = Button(text: string, data: string)

  /** Rows of inline buttons; the empty keyboard stands for a reply without markup. */
  type Keyboard = seq<seq<Button>>

  /** Telegram accepts callback data of 1 to 64 bytes. */
  const CallbackDataLimit: nat := 64

  predicate FitsCallbackData(data: string) {
    1 <= UriComponent.Utf8Size(data) <= CallbackDataLimit
  }

  /** Every button's data is within Telegram's limit; a reply carrying any other keyboard is rejected. */
  predicate KeyboardFits(k: Keyboard) {
    forall r, b :: 0 <= r < |k| && 0 <= b < |k[r]| ==> FitsCallbackData(k[r][b].data)
  }

  /** An update as the routers see it: a text message or an inline-button press. */
  datatype Update =
    | Text(user: UserId, text: string)
    | Press(user: UserId, data: string)
  {
    function User(): UserId {
      match this
      case Text(u, _) => u
      case Press(u, _) => u
    }
  }

  predicate IsCommandChar(c: char) {
    ('A' <= c <= 'Z') || ('a' <= c <= 'z') || ('0' <= c <= '9') || c == '_'
  }

  /** Length of the run of command characters at the front of `s`. */
  function CommandRun(s: string): (k: nat)
    ensures k <= |s|
    ensures forall i :: 0 <= i < k ==> IsCommandChar(s[i])
    ensures k < |s| ==> !IsCommandChar(s[k])
  {
    if s == [] || !IsCommandChar(s[0]) then 0 else 1 + CommandRun(s[1..])
  }

  /**
   * The command Telegraf's `bot.command(name)` and `bot.start` match: a leading
   * `/` followed by a non-empty run of letters, digits and underscores.
   */
  function CommandOf(text: string): (r: Option<string>)
    ensures r.Some? ==> StartsWith(text, "/") && r.value != []
    ensures r.Some? ==> StartsWith(text, "/" + r.value)
    ensures r.Some? ==> |text| == 1 + |r.value| || !IsCommandChar(text[1 + |r.value|])
  {
    if |text| == 0 || text[0] != '/' then None
    else
      var k := CommandRun(text[1..]);
      if k == 0 then None
      else
        assert text[..1 + k] == "/" + text[1..][..k];
        Some(text[1..][..k])
  }

  /** Text that names a command in its first word is exactly `"/" + name`, optionally followed by a non-command character. */
  lemma CommandOfPrefixed(name: string, rest: string)
    requires name != [] && forall i :: 0 <= i < |name| ==> IsCommandChar(name[i])
    requires rest == [] || !IsCommandChar(rest[0])
    ensures CommandOf("/" + name + rest) == Some(name)
  {
    var text := "/" + name + rest;
    assert text[1..] == name + rest;
    CommandRunOf(name, rest);
    assert text[1..][..|name|] == name;
  }

  lemma {:induction false} CommandRunOf(name: string, rest: string)
    requires forall i :: 0 <= i < |name| ==> IsCommandChar(name[i])
    requires rest == [] || !IsCommandChar(rest[0])
    ensures CommandRun(name + rest) == |name|
    decreases |name|
  {
    if name != [] {
      assert (name + rest)[1..] == name[1..] + rest;
      CommandRunOf(name[1..], rest);
    }
  }

  /** Length of the run of characters a regex `.` matches at the front of `s`. */
  function LineRun(s: string): (k: nat)
    ensures k <= |s|
    ensures forall i :: 0 <= i < k ==> !IsLineTerminator(s[i])
    ensures k < |s| ==> IsLineTerminator(s[k])
  {
    if s == [] || IsLineTerminator(s[0]) then 0 else 1 + LineRun(s[1..])
  }

  /** A callback id as the routers produce them: non-empty, on one line, without `:`. */
  predicate IsPlainId(id: string) {
    id != [] && forall i :: 0 <= i < |id| ==> !IsLineTerminator(id[i]) && id[i] != ':'
  }

  /** A handler prefix such as `mint_specific:`: its only colon is its last character. */
  predicate IsHandlerPrefix(p: string) {
    |p| > 0 && p[|p| - 1] == ':' && forall k :: 0 <= k < |p| - 1 ==> p[k] != ':'
  }

  /**
   * `ctx.match[1]` of the unanchored `/prefix(.+)/` searched from index `from`:
   * the leftmost occurrence of `prefix` followed by at least one non-line-terminator,
   * capturing the longest run of such characters.
   */
  function CaptureFrom(data: string, prefix: string, from: nat): (r: Option<string>)
    ensures r.Some? ==> r.value != [] && forall i :: 0 <= i < |r.value| ==> !IsLineTerminator(r.value[i])
    decreases |data| - from
  {
    if from + |prefix| >= |data| then None
    else if OccursAt(data, prefix, from) && !IsLineTerminator(data[from + |prefix|]) then
      var rest := data[from + |prefix|..];
      Some(rest[..LineRun(rest)])
    else CaptureFrom(data, prefix, from + 1)
  }

  /** The capture group of `bot.action(/prefix(.+)/)` for callback data `data`, or no match. */
  function Capture(data: string, prefix: string): (r: Option<string>)
    ensures r.Some? ==> r.value != [] && forall i :: 0 <= i < |r.value| ==> !IsLineTerminator(r.value[i])
  {
    CaptureFrom(data, prefix, 0)
  }

  /** A button built as `prefix + id` is captured back as exactly `id`. */
  lemma CaptureOwnPrefix(prefix: string, id: string)
    requires id != [] && forall i :: 0 <= i < |id| ==> !IsLineTerminator(id[i])
    ensures Capture(prefix + id, prefix) == Some(id)
  {
    var data := prefix + id;
    assert OccursAt(data, prefix, 0);
    assert data[|prefix|..] == id;
    assert !IsLineTerminator(data[|prefix|]);
    LineRunAll(id);
    assert id[..|id|] == id;
  }

  lemma {:induction false} LineRunAll(s: string)
    requires forall i :: 0 <= i < |s| ==> !IsLineTerminator(s[i])
    ensures LineRun(s) == |s|
  {
    if s != [] {
      LineRunAll(s[1..]);
    }
  }

  lemma {:induction false} CaptureFromNone(data: string, prefix: string, from: nat)
    requires forall j :: from <= j ==> !OccursAt(data, prefix, j)
    ensures CaptureFrom(data, prefix, from) == None
    decreases |data| - from
  {
    if from + |prefix| < |data| {
      CaptureFromNone(data, prefix, from + 1);
    }
  }

  /**
   * Unanchored prefixes do not shadow each other on the routers' buttons:
   * `prefix + id` is not matched by another handler prefix `other` unless
   * `other` is a suffix of `prefix`.
   */
  lemma CaptureOtherPrefix(prefix: string, id: string, other: string)
    requires IsHandlerPrefix(prefix) && IsHandlerPrefix(other)
    requires forall i :: 0 <= i < |id| ==> id[i] != ':'
    requires !(|other| <= |prefix| && prefix[|prefix| - |other|..] == other)
    ensures Capture(prefix + id, other) == None
  {
    var data := prefix + id;
    forall j | 0 <= j
      ensures !OccursAt(data, other, j)
    {
    }
    CaptureFromNone(data, other, 0);
  }

  /**
   * `prefix + id` is not matched by another handler prefix `other` that is
   * longer, or that differs from the end of `prefix` in its first character.
   */
  lemma CaptureMissesOther(prefix: string, id: string, other: string)
    requires IsHandlerPrefix(prefix) && IsHandlerPrefix(other) && IsPlainId(id)
    requires |other| > |prefix| || prefix[|prefix| - |other|] != other[0]
    ensures Capture(prefix + id, other) == None
  {
    if |other| <= |prefix| {
      assert prefix[|prefix| - |other|..][0] == prefix[|prefix| - |other|];
    }
    CaptureOtherPrefix(prefix, id, other);
  }

  /** Callback data without a `:` is never matched by a handler prefix, which ends in one. */
  lemma NoColonNoCapture(data: string, prefix: string)
    requires IsHandlerPrefix(prefix)
    requires forall i :: 0 <= i < |data| ==> data[i] != ':'
    ensures Capture(data, prefix) == None
  {
    forall j | 0 <= j
      ensures !OccursAt(data, prefix, j)
    {
      assert j + |prefix| - 1 < |data| ==> data[j..j + |prefix|][|prefix| - 1] != ':';
    }
    CaptureFromNone(data, prefix, 0);
  }

  /** Callback data containing a `:` never equals one of the colon-free exact-match actions. */
  lemma ColonDataIsNotExact(data: string, exact: string)
    requires exists i :: 0 <= i < |data| && data[i] == ':'
    requires forall i :: 0 <= i < |exact| ==> exact[i] != ':'
    ensures data != exact
  {
  }

  const BackLabel: string := "\U{00AB} Back to Menu"

  /** The single "« Back to Menu" row most replies carry. */
  const BackToMenu: Keyboard := [[Button(BackLabel, "back_to_menu")]]

  /** The main menu of `/start` and `back_to_menu`. */
  const MainMenu: Keyboard := [
    [Button("Generate Image", "request_image"), Button("Wallet Settings", "open_wallet")],
    [Button("My Images", "view_images"), Button("Help", "show_help")]
  ]

  /** The `open_wallet` menu; its fourth row depends on whether the wallet is delegated. */
  function WalletMenu(delegated: bool): (k: Keyboard)
    ensures |k| == 5 && forall r :: 0 <= r < 5 ==> |k[r]| == 1
  {
    [
      [Button("Create Wallet", "wallet:create")],
      [Button("View Address", "wallet:view")],
      [Button("Export Private Key", "wallet:export")],
      [if delegated then Button("Revoke Server Session", "wallet:revoke")
       else Button("Enable Server Session", "wallet:delegate")],
      [Button(BackLabel, "back_to_menu")]
    ]
  }

  /** Some button of `k` carries `text`. */
  predicate HasButton(k: Keyboard, text: string) {
    exists r, c :: 0 <= r < |k| && 0 <= c < |k[r]| && k[r][c].text == text
  }

  /** Some button of `k` sends `data`. */
  predicate HasData(k: Keyboard, data: string) {
    exists r, c :: 0 <= r < |k| && 0 <= c < |k[r]| && k[r][c].data == data
  }

  /**
   * The wallet menu offers "Revoke Server Session" exactly when the wallet is
   * delegated and "Enable Server Session" exactly when it is not; all other
   * rows are the same either way.
   */
  lemma WalletMenuToggle(delegated: bool)
    ensures HasButton(WalletMenu(delegated), "Revoke Server Session") <==> delegated
    ensures HasButton(WalletMenu(delegated), "Enable Server Session") <==> !delegated
    ensures HasData(WalletMenu(delegated), "wallet:revoke") <==> delegated
    ensures HasData(WalletMenu(delegated), "wallet:delegate") <==> !delegated
    ensures forall r :: 0 <= r < 5 && r != 3 ==> WalletMenu(delegated)[r] == WalletMenu(!delegated)[r]
  {
    var k: seq<seq<Button>> := WalletMenu(delegated);
    if delegated {
      assert k[3][0].text == "Revoke Server Session";
      assert k[3][0].data == "wallet:revoke";
      NotInWalletMenu(delegated, "Enable Server Session", "wallet:delegate");
    } else {
      assert k[3][0].text == "Enable Server Session";
      assert k[3][0].data == "wallet:delegate";
      NotInWalletMenu(delegated, "Revoke Server Session", "wallet:revoke");
    }
  }

  lemma NotInWalletMenu(delegated: bool, text: string, data: string)
    requires delegated ==> text == "Enable Server Session" && data == "wallet:delegate"
    requires !delegated ==> text == "Revoke Server Session" && data == "wallet:revoke"
    ensures !HasButton(WalletMenu(delegated), text)
    ensures !HasData(WalletMenu(delegated), data)
  {
    var k: seq<seq<Button>> := WalletMenu(delegated);
    forall r, c | 0 <= r < |k| && 0 <= c < |k[r]|
      ensures k[r][c].text != text && k[r][c].data != data
    {
      assert c == 0;
      if r == 3 {
        assert k[3][0] == (if delegated then Button("Revoke Server Session", "wallet:revoke")
                           else Button("Enable Server Session", "wallet:delegate"));
      }
    }
  }
}
