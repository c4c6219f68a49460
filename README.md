# Podcasting 2.0 phase-4 tag parsers, modelled in Dafny

This project models the phase-4 part of a podcast feed parser. It covers the
descriptors that turn parsed XML nodes into the typed records of the Podcasting 2.0
namespace:

- `<podcast:value>`: the payment routing of a feed or a live item. The model keeps its
  support check and `fn`, which runs the sub-tags registered under "value", and its
  registration as a sub-tag of the live item.
- `<podcast:medium>`: which medium the feed belongs to, from a fixed vocabulary, in
  any letter case.
- `<podcast:images>`: a `srcset` attribute split into image entries. Each entry is
  parsed as a width (`600w`), a pixel density (`2x`) or a plain URL.
- `<podcast:liveItem>`: live events. Each event has a status, a start, an optional
  end, the item record built from the item parser and the registered sub-tags, a
  chat fallback taken from the `chat` attribute, and the content links.

Each descriptor is modelled as the parser's registry uses it. `nodeTransform`
chooses the node(s), `supportCheck` decides whether `fn` runs, and `fn` either builds
the record or throws. A throw is a `Failure` carrying the error the source raises:

- a missing attribute;
- a value outside an enumeration;
- an unextractable medium.

The modules follow the program's structure:

- `Wrappers`: `Option`, `Result` and the `Thrown` errors.
- `JsStrings`: the JavaScript string operations the parsers rely on, with their
  semantics written out:
  - `trim`;
  - `split(",")` and `split(/\s+/)`;
  - `toLowerCase`;
  - `endsWith`;
  - `parseInt`.
- `Seqs`: `filter`, `map`, `find` and a flat map.
- `Xml`: the parsed node, and the shared helpers `getAttribute`,
  `getKnownAttribute`, `getText`, `ensureArray` and `firstIfArray`.
- `Phase4Types`: the records and enumerations of `types.ts`, with `lookup` and
  `knownLookup`.
- `Collaborators`: the functions the core calls but does not define. These are the
  item parser, the recipient helpers, the numeric test and the date conversion. They
  are parameters of the model, not code in it.
- `SubTags`: the sub-tag registry and the `forEach` that lets every registered
  descriptor overwrite fields of one record. Its lemmas say which descriptor's field
  wins.
- `Phase4Value`, `Phase4Medium`, `Phase4Images`, `Phase4LiveItem`: one module per
  descriptor.

## Model

| member | source | states |
|---|---|---|
| Xml.KnownAttribute | src/parser/phase/phase-4/phase-4.ts:48-49 | `getKnownAttribute` succeeds exactly when the attribute is present. It then returns the attribute's value; otherwise it throws the missing-attribute error for that name. |
| Xml.EnsureArray | src/parser/phase/phase-4/phase-4.ts:39 | Nothing becomes the empty list, a lone node becomes a one-element list, and a list is kept as it is. |
| Xml.FirstIfArray | src/parser/phase/phase-4/phase-4.ts:34 | `value.nodeTransform` yields a node exactly when the child list is non-empty, and that node is the first one. |
| Collaborators.FloatAttribute | src/parser/phase/phase-4/phase-4.ts:50 | The optional float attribute is present exactly when the attribute exists and is numeric. Its value is the attribute's `parseFloat`. |
| JsStrings.Trim | src/parser/phase/phase-4/phase-4.ts:95 | The result has no leading or trailing white space. It is the slice of the input between the first and the last character that is not white space. |
| JsStrings.TrimPadding | src/parser/phase/phase-4/phase-4.ts:95 | Trimming removes any white-space padding around a trimmed, non-empty string and gives back exactly that string. |
| JsStrings.JoinSplit | src/parser/phase/phase-4/phase-4.ts:92-93 | Joining the pieces of `split(",")` with commas rebuilds the input. |
| JsStrings.SplitJoin | src/parser/phase/phase-4/phase-4.ts:92-93 | `split(",")` of comma-free pieces joined by commas gives back those pieces. |
| JsStrings.SplitWsJoin | src/parser/phase/phase-4/phase-4.ts:97 | `split(/\s+/)` of tokens without white space, joined by single spaces, gives back those tokens. |
| JsStrings.SplitWsInterleave | src/parser/phase/phase-4/phase-4.ts:97 | `split(/\s+/)` of non-empty tokens without white space, separated by any non-empty runs of white space (spaces, tabs, newlines), gives back those tokens. |
| JsStrings.LowerIdempotent | src/parser/phase/phase-4/phase-4.ts:67 | Lower-casing a string twice gives the same result as lower-casing it once. |
| JsStrings.LowerMatches | src/parser/phase/phase-4/phase-4.ts:67 | `toLowerCase` of a text equals a lower-case ASCII word exactly when the text has the word's length and each character is the word's letter or its capital (or the Kelvin sign for `k`). |
| JsStrings.ParseIntDecimal | src/parser/phase/phase-4/phase-4.ts:102 | `parseInt(…, 10)` of the decimal writing of a natural number, followed by anything but a digit, gives that number back. |
| Phase4Types.MediumLookup | src/parser/phase/phase-4/types.ts:73-88 | `lookup(Phase4Medium, s)` returns a member whose value is `s`. It returns nothing exactly when no member has value `s`. |
| Phase4Types.MediumVocabulary | src/parser/phase/phase-4/types.ts:73-88 | The media are exactly podcast, music, video, film, audiobook, newsletter and blog. Every value is lower case, and no two members share a value. |
| Phase4Types.StatusLookup | src/parser/phase/phase-4/types.ts:90-94 | `lookup(Phase4LiveStatus, s)` returns a member whose value is `s`. It returns nothing exactly when no member has value `s`. |
| Phase4Types.StatusVocabulary | src/parser/phase/phase-4/types.ts:90-94 | The live statuses are exactly pending, live and ended. Every value is lower case, and no two members share a value. |
| Phase4Types.StatusMatchIgnoresCase | src/parser/phase/phase-4/phase-4.ts:147 | A status text, once lower-cased, names a member exactly when it spells that member's value letter by letter with each letter in either case, so `LIVE`, `Live` and `live` all name the live status. |
| Phase4Types.StatusKnownLookup | src/parser/phase/phase-4/phase-4.ts:186 | `knownLookup` succeeds exactly when `lookup` does, and then returns the member with that value. Otherwise it throws the not-in-enum error for the text. |
| SubTags.ApplySubTags | src/parser/phase/phase-4/phase-4.ts:173-175 | The `forEach` over the registered descriptors leaves the record that the left fold `OverlayAll` describes. |
| SubTags.OverlayAllAppend | src/parser/phase/phase-4/phase-4.ts:42-44 | Running two groups of registered descriptors one after the other is the same as running their concatenation. |
| SubTags.UntouchedFieldKept | src/parser/phase/phase-4/phase-4.ts:173-175 | A field that no descriptor sets keeps its initial value. |
| SubTags.LastWriterWins | src/parser/phase/phase-4/phase-4.ts:173-175 | A field ends with the value of the last descriptor that set it. |
| Phase4Value.ValueSupportedIff | src/parser/phase/phase-4/phase-4.ts:35-39 | The value support check holds exactly when `type` and `method` are present and non-empty and at least one recipient is valid. |
| Phase4Value.ExtractRecipients | src/parser/phase/phase-4/phase-4.ts:52 | The recipients are the valid recipient nodes, each converted, in document order: one per valid node, and none for an invalid one. |
| Phase4Value.ValueOf | src/parser/phase/phase-4/phase-4.ts:40-56 | `value.fn` succeeds exactly when `type` and `method` are present. It throws for `type` first, then for `method`, and it never throws on a supported node. |
| Phase4Value.ValueFn | src/parser/phase/phase-4/phase-4.ts:40-56 | The method (sub-tag loop, then the record) returns what `ValueOf` specifies. |
| Phase4Value.ValueRecord | src/parser/phase/phase-4/phase-4.ts:46-55 | Each field of the value record comes from the sub-tags where one of them set it. Otherwise it comes from the attributes, the optional `suggested` float or the extracted recipients. On a supported node the recipients are non-empty unless a sub-tag replaced them. |
| Phase4Value.RecipientsFromLastSubTag | src/parser/phase/phase-4/phase-4.ts:52-53 | With no sub-tag setting recipients, the recipients are the extracted ones, and there is at least one. Otherwise the last sub-tag that sets them wins. |
| Phase4Value.ValueForLiveItem | src/parser/phase/phase-4/phase-4.ts:58 | Registered under the live item, `value` takes the first `<podcast:value>` child and contributes only when the support check holds. It then contributes exactly the value record. |
| Phase4Medium.MediumTransform | src/parser/phase/phase-4/phase-4.ts:64-68 | The transform yields the first node, in document order, whose non-empty text names a medium once lower-cased. It yields nothing exactly when no node does. |
| Phase4Medium.MediumFn | src/parser/phase/phase-4/phase-4.ts:70-79 | `medium.fn` succeeds exactly when the trimmed, lower-cased text names a medium, and returns that medium. Otherwise it throws the unextractable-medium error. |
| Phase4Medium.MediumNeverThrows | src/parser/phase/phase-4/phase-4.ts:64-79 | The whole descriptor yields a result exactly when some node names a medium. That result is never a throw; it is the medium of the first such node. |
| Phase4Medium.MediumIgnoresCase | src/parser/phase/phase-4/phase-4.ts:71-75 | `medium.fn` returns a medium exactly when the trimmed text spells that medium's value letter by letter with each letter in either case, so `Podcast` and `PODCAST` both give the podcast medium. |
| Phase4Medium.MediumUnknownThrows | src/parser/phase/phase-4/phase-4.ts:78 | `medium.fn` throws exactly when the lower-cased text is the value of no medium. |
| Phase4Medium.MediumIgnoresPadding | src/parser/phase/phase-4/phase-4.ts:71 | White space around the text does not change what `medium.fn` returns. |
| Phase4Images.ImagesTransform | src/parser/phase/phase-4/phase-4.ts:86-88 | The transform yields the first node, in document order, with a non-empty `srcset`. It yields nothing exactly when no node has one. |
| Phase4Images.ParseDescriptor | src/parser/phase/phase-4/phase-4.ts:97-119 | The parsed URL is the first token when the entry has exactly two white-space-separated tokens. Otherwise it is the whole entry. |
| Phase4Images.DescriptorUrlNonEmpty | src/parser/phase/phase-4/phase-4.ts:97-119 | A non-empty trimmed entry never parses to an empty URL. |
| Phase4Images.DescriptorOneToken | src/parser/phase/phase-4/phase-4.ts:116-118 | A single token is a plain URL image, and no warning is logged for it. |
| Phase4Images.DescriptorTwoTokens | src/parser/phase/phase-4/phase-4.ts:97-115 | Two tokens separated by any run of white space give a width when the second ends in `w` and a density when it ends in `x`. Otherwise they give a plain URL, and the warning is logged exactly in that last case. |
| Phase4Images.DescriptorManyTokens | src/parser/phase/phase-4/phase-4.ts:97-118 | Three or more tokens, separated by any runs of white space, give a plain URL image of the whole entry, with no warning. |
| Phase4Images.WidthDescriptor | src/parser/phase/phase-4/phase-4.ts:100-104 | `url Nw`, with any run of white space before `Nw`, parses to a width image of `url` with width N. |
| Phase4Images.DensityDescriptor | src/parser/phase/phase-4/phase-4.ts:105-109 | `url Dx`, with any run of white space before `Dx`, parses to a density image of `url` with density `parseFloat(D)`. |
| Phase4Images.ReduceIsEntries | src/parser/phase/phase-4/phase-4.ts:94-122 | The `reduce` appends, in order, the entries of the parts that are not blank once trimmed. |
| Phase4Images.EntriesAreFilteredTrims | src/parser/phase/phase-4/phase-4.ts:94-122 | Those entries are the parts trimmed, with the empty ones dropped, each turned into an entry. |
| Phase4Images.ParseSrcset | src/parser/phase/phase-4/phase-4.ts:92-122 | Every image entry's raw text is non-empty, trimmed and comma-free, and its parsed form is that raw text's descriptor. |
| Phase4Images.SrcsetRawRoundTrip | src/parser/phase/phase-4/phase-4.ts:92-122 | Joining non-empty, trimmed, comma-free entries with commas and parsing them gives back one image per entry, in order. |
| Phase4Images.SrcsetOfThree | src/parser/phase/phase-4/phase-4.ts:92-122 | `x, y, z` (with a space after each comma) parses to the three entries `x`, `y` and `z`. |
| Phase4Images.SrcsetWidthDensityUrl | src/parser/phase/phase-4/phase-4.ts:92-122 | `a Nw, b Dx, c` parses to a width image, a density image and a plain URL image, in that order. |
| Phase4Images.ImagesFn | src/parser/phase/phase-4/phase-4.ts:90-124 | `podcastImages.fn` succeeds exactly when `srcset` is present, and returns its parsed entries. |
| Phase4Images.ImagesNeverThrow | src/parser/phase/phase-4/phase-4.ts:86-124 | The descriptor yields a result exactly when some node has a non-empty `srcset`. That result is never a throw; it is the images of the first such node. |
| Phase4Images.ImagesForLiveItem | src/parser/phase/phase-4/phase-4.ts:126 | Registered under the live item, `podcastImages` contributes exactly when its transform finds a node, and then contributes only that node's images. |
| Phase4LiveItem.LiveItemTransform | src/parser/phase/phase-4/phase-4.ts:140-150 | The transform is the `filter` of the child list by the candidate test: it keeps every copy of each node with a non-empty `start` and a non-empty `status` that names a status in any case, drops every other node, and keeps document order. It is non-empty exactly when one such node exists. |
| Seqs.FilterMultiplicity | src/parser/phase/phase-4/phase-4.ts:142 | `filter` keeps as many copies of an element as the input has when the element passes, and none when it does not. |
| Phase4LiveItem.ChatFallback | src/parser/phase/phase-4/phase-4.ts:177-183 | An item without a chat takes the non-empty `chat` attribute as a phase-4 chat. An item that has a chat keeps it, and nothing else changes. |
| Phase4LiveItem.ContentLinks | src/parser/phase/phase-4/phase-4.ts:128-134 | There is one link per `<podcast:contentLink>`. Each link's title is its trimmed text, and its URL is `href`, or the empty string when `href` is absent. |
| Phase4LiveItem.LiveItemOf | src/parser/phase/phase-4/phase-4.ts:155-193 | A node yields nothing exactly when it lacks a guid, title or enclosure. It throws for a missing `status`, then for an unknown status, then for a missing `start`, and never throws on a candidate. Otherwise the record holds the lower-cased status, the start, the end when present, the finished item and the content links. |
| Phase4LiveItem.LiveItemOfNode | src/parser/phase/phase-4/phase-4.ts:155-193 | The imperative callback (item, sub-tag loop, chat assignment, record) returns what `LiveItemOf` specifies. |
| Phase4LiveItem.LiveItemFn | src/parser/phase/phase-4/phase-4.ts:152-199 | The loop over the nodes (`map`, then the `filter` on `start`) returns what `LiveItems` specifies, stopping at the first throw. |
| Phase4LiveItem.LiveItemsStopsAtFailure | src/parser/phase/phase-4/phase-4.ts:154-194 | Once one node throws, the later nodes do not change the outcome. |
| Phase4LiveItem.LiveItemsSnoc | src/parser/phase/phase-4/phase-4.ts:154-197 | Adding a node at the end keeps an earlier throw. Otherwise it throws that node's error, or appends its live item when it has one. |
| Phase4LiveItem.LiveItemsAppend | src/parser/phase/phase-4/phase-4.ts:154-197 | The live items of two node lists that both succeed are the live items of each list, concatenated. |
| Phase4LiveItem.CandidatesYieldItems | src/parser/phase/phase-4/phase-4.ts:154-197 | On candidate nodes nothing throws. The items are, in order, those of the candidates that have a guid, a title and an enclosure. |
| Phase4LiveItem.LiveItemsOfFeed | src/parser/phase/phase-4/phase-4.ts:140-199 | The descriptor yields live items exactly when some node is a candidate, and it never throws. It yields one item per candidate with guid, title and enclosure, in document order, each with the status its attribute names in any case. |
| Phase4LiveItem.ChatOfLiveItem | src/parser/phase/phase-4/phase-4.ts:173-183 | The item's chat is the last chat a sub-tag set. When no sub-tag set one, it is the `chat` attribute fallback. |
| Phase4LiveItem.BaseFieldsKept | src/parser/phase/phase-4/phase-4.ts:163-175 | When no sub-tag sets guid, title or enclosure, the item keeps those the item parser found, and the guid is non-empty. |
| Phase4LiveItem.PhaseFourSubTags | src/parser/phase/phase-4/phase-4.ts:58 | With `value` and `podcastImages` registered, a live item equals the item parser's record apart from value, images and chat. Value and images are what those descriptors produce, and chat is the attribute fallback. |

## Left out

- Logging and process configuration are not modelled. The "Unexpected descriptor" warning is the predicate `WarnsUnexpected`; `DescriptorTwoTokens` and the other descriptor lemmas state when it holds. `src/config.ts` only picks a log level and is not part of this model.
- Building the XML tree is not modelled. A node is given as its attributes, its text and its children by tag name; a repeated child tag is already a list.
- The shared helpers are not part of this model. Their behaviour is modelled from how the core uses them:
  - `getText` is the trimmed text;
  - `getKnownAttribute` throws only when the attribute is absent;
  - `lookup` matches a member's value exactly.
- The item parser (`getGuid`, `getTitle`, `getEnclosure`, `getDescription`, `getLink`, `getAuthor`, `getImage`), `validRecipient`, the recipient conversion, the numeric test and `pubDateToDate` are calls into code outside the core. They are function-valued parameters (`Collaborators.Env`), and the model proves nothing about their results.
- Floating point is not modelled. `parseFloat` results are kept as the text they were parsed from (`Float`).
- `parseInt` is modelled on unbounded integers. The loss of precision above 2^53 is not modelled.
- `toLowerCase` is modelled only for the letters A–Z and the Kelvin sign. These are the only characters whose lower case is a plain ASCII letter, which is all that matching against the lower-case medium and status vocabularies depends on. Strings are sequences of code points, not UTF-16 code units.
- A registered sub-tag is modelled as a total function from the child node to an optional contribution. A sub-tag that throws is not modelled.
- `null` or `undefined` nodes in a child list are not modelled (`n &&`, `Boolean(node)`): the tree holds only nodes.
- Phase4LiveItem.LiveItemOf: the item record is kept as a field `item` of the live item rather than spread into it (`...item`, source line 191). The test `Object.keys(item).length > 0` always holds there, because the item carries guid, title and enclosure.
- Phase4Value.ExtractRecipients: the body of `extractRecipients` is not part of this model. It is assumed to keep the recipient nodes that pass the same `validRecipient` test the support check uses, and to convert each in document order. The "at least one recipient" clauses of `Phase4Value.ValueRecord` and `Phase4Value.RecipientsFromLastSubTag` rest on that assumption.
- Phase4Value.ValueOf: `suggested` follows the code, which stores the number `extractOptionalFloatAttribute` produces. The record type in `types.ts` (line 24) declares it a string.
- Phase4Images.SrcsetWidthDensityUrl: a concrete example such as `"a.jpg 600w, b.jpg 2x, c.jpg"` is stated for all URLs, widths and densities of that shape, not for one literal string.
