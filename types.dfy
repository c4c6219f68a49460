/**
 * The records and enumerations of the phase-4 tags (src/parser/phase/phase-4/types.ts),
 * with the enum lookups (`lookup`, `knownLookup`) that turn attribute text into members.
 */
module Phase4Types {
  import opened Wrappers
  import opened JsStrings

  /** A JavaScript number obtained from `parseFloat(source)`. Floating point is not modelled:
      the number is kept as the text it was parsed from. */
  datatype Float = ParseFloat(source: string)

  /** A `Date` obtained from a publication-date string; `Invalid` is JavaScript's invalid date. */
  datatype Date = Instant(millis: int) | Invalid

  /** A record built by a parser outside the phase-4 tags (people, alternate enclosures, live updates,
      value time splits, the pending chat tag); its content is not part of this model. */
  datatype External = External(id: nat)

  /** The episode enclosure returned by the item parser. */
  datatype Enclosure = Enclosure(url: string, length: int, mimeType: string)

  /** `Phase4Medium`: the closed vocabulary of the `<podcast:medium>` tag. */
  datatype Medium = Podcast | Music | Video | Film | Audiobook | Newsletter | Blog

  function MediumValue(m: Medium): string {
    match m
    case Podcast => "podcast"
    case Music => "music"
    case Video => "video"
    case Film => "film"
    case Audiobook => "audiobook"
    case Newsletter => "newsletter"
    case Blog => "blog"
  }

  /** `lookup(Phase4Medium, s)`: the member whose value is `s`, if any. */
  function MediumLookup(s: string): (r: Option<Medium>)
    ensures r.Some? ==> MediumValue(r.value) == s
    ensures r.None? <==> forall m: Medium :: MediumValue(m) != s
  {
    if s == "podcast" then Some(Podcast)
    else if s == "music" then Some(Music)
    else if s == "video" then Some(Video)
    else if s == "film" then Some(Film)
    else if s == "audiobook" then Some(Audiobook)
    else if s == "newsletter" then Some(Newsletter)
    else if s == "blog" then Some(Blog)
    else None
  }

  /** The medium vocabulary is exactly these seven strings, all lower case, one per member. */
  lemma MediumVocabulary()
    ensures forall s :: MediumLookup(s).Some? <==>
      s in ["podcast", "music", "video", "film", "audiobook", "newsletter", "blog"]
    ensures forall m: Medium :: IsLower(MediumValue(m))
    ensures forall m, m': Medium :: MediumValue(m) == MediumValue(m') ==> m == m'
  {
    forall m: Medium ensures IsLower(MediumValue(m)) {
      MediumValueLower(m);
    }
    forall m: Medium, m': Medium | MediumValue(m) == MediumValue(m') ensures m == m' {
      MediumValueInjective(m, m');
    }
  }

  lemma MediumValueLower(m: Medium)
    ensures IsLower(MediumValue(m))
  {
    var v := MediumValue(m);
    MediumValueAscii(m);
    assert Lower(v) == v;
  }

  lemma MediumValueAscii(m: Medium)
    ensures IsAsciiLower(MediumValue(m))
  {
    var v := MediumValue(m);
    assert forall i :: 0 <= i < |v| ==> 'a' <= v[i] <= 'z';
  }

  lemma MediumValueInjective(m: Medium, m': Medium)
    requires MediumValue(m) == MediumValue(m')
    ensures m == m'
  {
  }

  /** `Phase4LiveStatus`: the state of a `<podcast:liveItem>`. */
  datatype LiveStatus = Pending | Live | Ended

  function StatusValue(s: LiveStatus): string {
    match s
    case Pending => "pending"
    case Live => "live"
    case Ended => "ended"
  }

  /** `lookup(Phase4LiveStatus, s)`: the member whose value is `s`, if any. */
  function StatusLookup(s: string): (r: Option<LiveStatus>)
    ensures r.Some? ==> StatusValue(r.value) == s
    ensures r.None? <==> forall st: LiveStatus :: StatusValue(st) != s
  {
    if s == "pending" then Some(Pending)
    else if s == "live" then Some(Live)
    else if s == "ended" then Some(Ended)
    else None
  }

  /** The status vocabulary is exactly three lower-case strings, one per member. */
  lemma StatusVocabulary()
    ensures forall s :: StatusLookup(s).Some? <==> s in ["pending", "live", "ended"]
    ensures forall st: LiveStatus :: IsLower(StatusValue(st))
    ensures forall st, st': LiveStatus :: StatusValue(st) == StatusValue(st') ==> st == st'
  {
    forall st: LiveStatus ensures IsLower(StatusValue(st)) {
      var v := StatusValue(st);
      assert forall i :: 0 <= i < |v| ==> 'a' <= v[i] <= 'z';
      assert Lower(v) == v;
    }
  }

  lemma StatusValueAscii(st: LiveStatus)
    ensures IsAsciiLower(StatusValue(st))
  {
    var v := StatusValue(st);
    assert forall i :: 0 <= i < |v| ==> 'a' <= v[i] <= 'z';
  }

  /** The parsers lower-case attribute text before the lookup, so a status matches whatever its case:
      text names a member exactly when it spells that member's value letter by letter, each letter in
      either case ("LIVE", "Live" and "live" all name `Live`). */
  lemma {:induction false} StatusMatchIgnoresCase(s: string, st: LiveStatus)
    ensures StatusLookup(Lower(s)) == Some(st) <==>
      |s| == |StatusValue(st)| && forall i :: 0 <= i < |s| ==> CaseVariant(s[i], StatusValue(st)[i])
  {
    StatusValueAscii(st);
    LowerMatches(s, StatusValue(st));
    assert StatusLookup(Lower(s)) == Some(st) <==> Lower(s) == StatusValue(st);
  }

  /** `knownLookup(Phase4LiveStatus, s)`: the member whose value is `s`; throws when there is none. */
  function StatusKnownLookup(s: string): (r: Result<LiveStatus, Thrown>)
    ensures r.Success? <==> StatusLookup(s).Some?
    ensures r.Success? ==> StatusValue(r.value) == s
    ensures r.Failure? ==> r.error == NotInEnum(s)
  {
    match StatusLookup(s)
    case Some(st) => Success(st)
    case None => Failure(NotInEnum(s))
  }

  /** `Phase4PodcastParsedImage`: one of three shapes, each carrying the image url. `WidthImage.width`
      is `None` when `parseInt` gave NaN. */
  datatype ParsedImage =
    | WidthImage(url: string, width: Option<int>)
    | DensityImage(url: string, density: Float)
    | UrlImage(url: string)

  /** `Phase4PodcastImage`: the verbatim descriptor text and its parsed shape. */
  datatype PodcastImage = PodcastImage(raw: string, parsed: ParsedImage)

  /** `Phase4ValueRecipient`: only the name and the custom key and value are optional. */
  datatype Recipient = Recipient(
    name: Option<string>,
    customKey: Option<string>,
    customValue: Option<string>,
    recipientType: string,
    address: string,
    split: Float,
    fee: bool)

  /** `Phase4Value`: its `type` and `method` fields are `valueType` and `valueMethod` here (both are Dafny keywords). */
  datatype Value = Value(
    valueType: string,
    valueMethod: string,
    suggested: Option<Float>,
    recipients: seq<Recipient>,
    valueTimeSplits: Option<seq<External>>)

  /** A partial `Phase4Value`: the fields a sub-tag parser registered under "value" may produce. */
  datatype ValuePatch = ValuePatch(
    valueType: Option<string>,
    valueMethod: Option<string>,
    suggested: Option<Float>,
    recipients: Option<seq<Recipient>>,
    valueTimeSplits: Option<seq<External>>)

  const EmptyValuePatch := ValuePatch(None, None, None, None, None)

  /** The `chat` field of a live item: the pending-phase chat record, or the phase-4 fallback `{phase, url}`. */
  datatype Chat = PendingChat(chat: External) | Phase4Chat(phase: string, url: string)

  /** `Phase4ContentLink`. */
  datatype ContentLink = ContentLink(url: string, title: string)

  /** `Phase4PodcastLiveItemItem`: guid, title and enclosure are required, every other field optional. */
  datatype LiveItemItem = LiveItemItem(
    guid: string,
    title: string,
    enclosure: Enclosure,
    description: Option<string>,
    link: Option<string>,
    author: Option<string>,
    image: Option<string>,
    podcastPeople: Option<seq<External>>,
    alternativeEnclosures: Option<seq<External>>,
    podcastImages: Option<seq<PodcastImage>>,
    value: Option<Value>,
    chat: Option<Chat>,
    liveUpdates: Option<External>)

  /** A partial `Phase4PodcastLiveItemItem`: the fields a sub-tag parser registered under "liveItem" may produce. */
  datatype LiveItemPatch = LiveItemPatch(
    guid: Option<string>,
    title: Option<string>,
    enclosure: Option<Enclosure>,
    description: Option<string>,
    link: Option<string>,
    author: Option<string>,
    image: Option<string>,
    podcastPeople: Option<seq<External>>,
    alternativeEnclosures: Option<seq<External>>,
    podcastImages: Option<seq<PodcastImage>>,
    value: Option<Value>,
    chat: Option<Chat>,
    liveUpdates: Option<External>)

  const EmptyLiveItemPatch := LiveItemPatch(None, None, None, None, None, None, None, None, None, None, None, None, None)

  /** `Phase4PodcastLiveItem`: status, start and content links are always present, the end is optional. */
  datatype LiveItem = LiveItem(
    status: LiveStatus,
    start: Date,
    end: Option<Date>,
    item: LiveItemItem,
    contentLinks: seq<ContentLink>)
}
