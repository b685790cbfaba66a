/**
 * The "My Images" listing shared by `view_images` (canonical and compiled
 * entry points) and the legacy `/myimages` command: at most five entries,
 * numbered from 1, then a count of the images left out.
 */
module ImageList {
  import opened Basics
  import opened JsText

  /** A row of the `images` table as the handlers read it. */
  datatype ImageRecord = ImageRecord(id: string, prompt: string, url: string, createdAt: int)

  /** What `getUserImages` yields: the rows, a `null` data field, or a thrown error. */
  datatype Rows = Rows(images: seq<ImageRecord>) | NullRows | FetchFails

  /** `getUserImages` orders by `created_at` descending. */
  predicate NewestFirst(images: seq<ImageRecord>) {
    forall i, j :: 0 <= i < j < |images| ==> images[i].createdAt >= images[j].createdAt
  }

  /** `images.find((img) => img.id === id)`: the first image with that id. */
  function FindImage(images: seq<ImageRecord>, id: string): (r: Option<ImageRecord>)
    ensures r.None? <==> forall k :: 0 <= k < |images| ==> images[k].id != id
    ensures r.Some? ==> r.value.id == id && r.value in images
    ensures forall k :: 0 <= k < |images| && images[k].id == id && (forall j :: 0 <= j < k ==> images[j].id != id) ==> r == Some(images[k])
    decreases |images|
  {
    if images == [] then None
    else if images[0].id == id then Some(images[0])
    else
      var r := FindImage(images[1..], id);
      assert forall k :: 1 <= k < |images| ==> images[1..][k - 1] == images[k];
      r
  }

  const Header: string := "\U{1F5BC}\U{FE0F} Your most recent images:\n\n"

  /** How many images the listing shows. */
  const ShownMax: nat := 5

  function Shown(n: nat): (k: nat)
    ensures k <= n && k <= ShownMax
    ensures k == n || k == ShownMax
  {
    if n < ShownMax then n else ShownMax
  }

  const EntryOpen: string := ". \""
  const EntryClose: string := "\"\n"
  const BlankLine: string := "\n\n"

  /** One numbered entry: `position. "prompt"`, the URL, and a blank line. */
  function Entry(position: nat, image: ImageRecord): (e: string)
    ensures EndsWith(e, BlankLine)
  {
    var e := DecimalString(position) + EntryOpen + image.prompt + EntryClose + image.url + BlankLine;
    assert e[|e| - 2..] == BlankLine;
    e
  }

  /** `images` rendered one after another by `entry`, numbered from `first`. */
  function Joined(entry: (nat, ImageRecord) -> string, images: seq<ImageRecord>, first: nat): string
    decreases |images|
  {
    if images == [] then "" else entry(first, images[0]) + Joined(entry, images[1..], first + 1)
  }

  /** The entries for `images`, numbered from `first`. */
  function EntriesFrom(images: seq<ImageRecord>, first: nat): string {
    Joined(Entry, images, first)
  }

  /** The line counting the `hidden` images left out of the listing. */
  const CountLead: string := "...and "
  const CountTail: string := " more images."

  function CountLine(hidden: nat): string {
    CountLead + DecimalString(hidden) + CountTail
  }

  /** What follows the entries: the count line when images were left out, nothing otherwise. */
  function Trailer(n: nat): string {
    if n > ShownMax then CountLine(n - ShownMax) else ""
  }

  /** The listing for a non-empty image list. */
  function ListMessage(images: seq<ImageRecord>): string
    requires images != []
  {
    Header + EntriesFrom(images[..Shown(|images|)], 1) + Trailer(|images|)
  }

  /** The listing as the handlers build it: `slice(0, 5)`, then one `+=` per entry in `forEach` order, then the count line. */
  method RenderList(images: seq<ImageRecord>) returns (message: string)
    requires images != []
    ensures message == ListMessage(images)
  {
    var recent := images[..Shown(|images|)];
    message := AppendEach(Entry, Header, recent);
    if |images| > ShownMax {
      message := message + CountLead + DecimalString(|images| - ShownMax) + CountTail;
    }
  }

  /** `forEach` with `+=`: appends the rendering of each image, numbered from 1, to `start`. */
  method AppendEach(entry: (nat, ImageRecord) -> string, start: string, images: seq<ImageRecord>) returns (message: string)
    ensures message == start + Joined(entry, images, 1)
  {
    message := start;
    var index := 0;
    while index < |images|
      invariant 0 <= index <= |images|
      invariant message == start + Joined(entry, images[..index], 1)
    {
      JoinedSnoc(entry, images[..index], images[index], 1);
      assert images[..index + 1] == images[..index] + [images[index]];
      message := message + entry(index + 1, images[index]);
      index := index + 1;
    }
    assert images[..index] == images;
  }

  /** Appending an image appends its rendering, numbered after the ones before it. */
  lemma {:induction false} JoinedSnoc(entry: (nat, ImageRecord) -> string, images: seq<ImageRecord>, x: ImageRecord, first: nat)
    ensures Joined(entry, images + [x], first) == Joined(entry, images, first) + entry(first + |images|, x)
    decreases |images|
  {
    if images == [] {
      assert [x][1..] == [];
    } else {
      assert (images + [x])[1..] == images[1..] + [x];
      JoinedSnoc(entry, images[1..], x, first + 1);
    }
  }

  /** The renderings split around position `k`, which is numbered `first + k`. */
  lemma {:induction false} JoinedSplit(entry: (nat, ImageRecord) -> string, images: seq<ImageRecord>, k: nat, first: nat)
    requires k < |images|
    ensures Joined(entry, images, first)
      == Joined(entry, images[..k], first) + (entry(first + k, images[k]) + Joined(entry, images[k + 1..], first + k + 1))
    decreases k
  {
    var tail := entry(first + k, images[k]) + Joined(entry, images[k + 1..], first + k + 1);
    if k == 0 {
      assert images[..0] == [];
      assert images[1..] == images[k + 1..];
    } else {
      var rest := images[1..];
      JoinedSplit(entry, rest, k - 1, first + 1);
      assert rest[k - 1] == images[k];
      assert rest[k..] == images[k + 1..];
      var head := entry(first, images[0]);
      var mid := Joined(entry, rest[..k - 1], first + 1);
      assert images[..k][0] == images[0];
      assert images[..k][1..] == rest[..k - 1];
      assert Joined(entry, images[..k], first) == head + mid;
      assert head + (mid + tail) == (head + mid) + tail;
    }
  }

  /** Appending an image appends its entry, numbered after the ones before it. */
  lemma EntriesSnoc(images: seq<ImageRecord>, x: ImageRecord, first: nat)
    ensures EntriesFrom(images + [x], first) == EntriesFrom(images, first) + Entry(first + |images|, x)
  {
    JoinedSnoc(Entry, images, x, first);
  }

  /** The listing before its count line. */
  function Body(images: seq<ImageRecord>): string {
    Header + EntriesFrom(images[..Shown(|images|)], 1)
  }

  /** Between any text before and after, the rendering of image `k` sits right after the renderings before it. */
  lemma JoinedShows(entry: (nat, ImageRecord) -> string, pre: string, images: seq<ImageRecord>, k: nat, first: nat, post: string)
    requires k < |images|
    ensures OccursAt(pre + Joined(entry, images, first) + post, entry(first + k, images[k]), |pre| + |Joined(entry, images[..k], first)|)
  {
    JoinedSplit(entry, images, k, first);
    var x := Joined(entry, images[..k], first);
    var e := entry(first + k, images[k]);
    var r := Joined(entry, images[k + 1..], first + k + 1);
    assert pre + (x + (e + r)) + post == (pre + x) + e + (r + post);
    OccursBetween(pre + x, e, r + post);
  }

  /**
   * The listing shows the first min(n, 5) images in order, the image at index
   * `k` as entry number `k + 1` right after the entries before it.
   */
  lemma ListShowsEntry(images: seq<ImageRecord>, k: nat)
    requires images != [] && k < Shown(|images|)
    ensures OccursAt(ListMessage(images), Entry(k + 1, images[k]), |Header| + |EntriesFrom(images[..k], 1)|)
  {
    var recent := images[..Shown(|images|)];
    JoinedShows(Entry, Header, recent, k, 1, Trailer(|images|));
    assert recent[..k] == images[..k];
    assert recent[k] == images[k];
  }

  /** The count line ends with ` more images.`, and the number in it reads back as the hidden count. */
  lemma CountLineShape(hidden: nat)
    ensures EndsWith(CountLine(hidden), CountTail)
    ensures StartsWith(CountLine(hidden), CountLead + DecimalString(hidden))
    ensures DecimalValue(DecimalString(hidden)) == hidden
  {
    var d := DecimalString(hidden);
    var t := CountLine(hidden);
    assert t[|t| - |CountTail|..] == CountTail;
    assert t[..|CountLead + d|] == CountLead + d;
    DecimalRoundTrip(hidden);
  }

  lemma ListMessageSplit(images: seq<ImageRecord>)
    requires images != []
    ensures ListMessage(images) == Body(images) + Trailer(|images|)
  {
  }

  /** With more than five images the listing ends with the count line for n - 5. */
  lemma TrailerWhenMore(images: seq<ImageRecord>)
    requires |images| > ShownMax
    ensures EndsWith(ListMessage(images), CountLine(|images| - ShownMax))
    ensures EndsWith(ListMessage(images), CountTail)
  {
    var t := Trailer(|images|);
    ListMessageSplit(images);
    EndsWithItself(t);
    EndsWithConcat(Body(images), t, t);
    CountLineShape(|images| - ShownMax);
    EndsWithConcat(Body(images), t, CountTail);
  }

  /** With at most five images the listing ends with the blank line of its last entry. */
  lemma BlankLineWhenFew(images: seq<ImageRecord>)
    requires images != [] && |images| <= ShownMax
    ensures EndsWith(ListMessage(images), BlankLine)
    ensures !EndsWith(ListMessage(images), CountTail)
  {
    var entries := EntriesFrom(images[..Shown(|images|)], 1);
    assert images[..Shown(|images|)] != [];
    BodyEndsWithBlankLine(images[..Shown(|images|)], 1);
    assert ListMessage(images) == Header + entries + "";
    assert Header + entries + "" == Header + entries;
    EndsWithConcat(Header, entries, BlankLine);
    var m := ListMessage(images);
    assert m[|m| - 1] == '\n';
    assert CountTail[|CountTail| - 1] == '.';
  }

  /** The listing ends with the count line exactly when more than five images exist, and then that line states n - 5. */
  lemma TrailerIff(images: seq<ImageRecord>)
    requires images != []
    ensures EndsWith(ListMessage(images), CountTail) <==> |images| > ShownMax
    ensures |images| > ShownMax ==> EndsWith(ListMessage(images), CountLine(|images| - ShownMax))
    ensures |images| <= ShownMax ==> EndsWith(ListMessage(images), BlankLine)
  {
    if |images| > ShownMax {
      TrailerWhenMore(images);
    } else {
      BlankLineWhenFew(images);
    }
  }

  /** A non-empty run of entries ends with a blank line. */
  lemma BodyEndsWithBlankLine(images: seq<ImageRecord>, first: nat)
    ensures images != [] ==> EndsWith(EntriesFrom(images, first), BlankLine)
  {
    if images != [] {
      var last := images[|images| - 1];
      assert images == images[..|images| - 1] + [last];
      EntriesSnoc(images[..|images| - 1], last, first);
      var pre := EntriesFrom(images[..|images| - 1], first);
      var e := Entry(first + |images| - 1, last);
      assert (pre + e)[|pre + e| - 2..] == e[|e| - 2..];
    }
  }

  /** The listing depends only on the first five images and the total count. */
  lemma OnlyFirstFiveShown(a: seq<ImageRecord>, b: seq<ImageRecord>)
    requires a != [] && |a| == |b|
    requires a[..Shown(|a|)] == b[..Shown(|b|)]
    ensures ListMessage(a) == ListMessage(b)
  {
  }
}
