/**
 * The `<podcast:liveItem>` descriptor (src/parser/phase/phase-4/phase-4.ts, `liveItem`) and the
 * content links of a live item (`getContentLinks`): the live streams a feed announces, each with
 * its status, start and optional end, the episode-like fields the item parser and the sub-tags
 * registered under "liveItem" provide, and its content links.
 */
module Phase4LiveItem {
  import opened Wrappers
  import opened Seqs
  import opened JsStrings
  import opened Xml
  import opened Phase4Types
  import opened Collaborators
  import opened SubTags
  import opened Phase4Value
  import opened Phase4Images

  const LiveItemTag := "podcast:liveItem"
  const ContentLinkTag := "podcast:contentLink"

  /** The test `liveItem.nodeTransform` applies to each node: a non-empty `status` that names a live
      status once lower-cased, and a non-empty `start`. */
  predicate IsLiveCandidate(n: XmlNode) {
    && Truthy(GetAttribute(n, "status"))
    && StatusLookup(Lower(n.attributes["status"])).Some?
    && Truthy(GetAttribute(n, "start"))
  }

  /** `liveItem.nodeTransform`: the candidate nodes, in document order. */
  function LiveItemTransform(child: Option<Shape>): (r: seq<XmlNode>)
    ensures r == Filter(IsLiveCandidate, EnsureArray(child))
    ensures forall x :: multiset(r)[x] == if IsLiveCandidate(x) then multiset(EnsureArray(child))[x] else 0
    ensures forall x :: x in r <==> x in EnsureArray(child) && IsLiveCandidate(x)
    ensures IsSubseq(r, EnsureArray(child))
    ensures |r| > 0 <==> exists i :: 0 <= i < |EnsureArray(child)| && IsLiveCandidate(EnsureArray(child)[i])
  {
    FilterKeepsExactly(IsLiveCandidate, EnsureArray(child));
    FilterMultiplicity(IsLiveCandidate, EnsureArray(child));
    Filter(IsLiveCandidate, EnsureArray(child))
  }

  /** `liveItem.supportCheck`. */
  predicate LiveItemSupported(nodes: seq<XmlNode>) {
    |nodes| > 0
  }

  /** The item parser found a non-empty guid, a title and an enclosure: without them the node yields no live item. */
  predicate HasBase(env: Env, n: XmlNode) {
    Truthy(env.getGuid(n)) && env.getTitle(n).Some? && env.getEnclosure(n).Some?
  }

  function HasBaseFn(env: Env): XmlNode -> bool {
    n => HasBase(env, n)
  }

  /** The record the item parser provides before any sub-tag runs. */
  function BaseItem(env: Env, n: XmlNode): (item: LiveItemItem)
    requires HasBase(env, n)
  {
    LiveItemItem(env.getGuid(n).value, env.getTitle(n).value, env.getEnclosure(n).value,
                 env.getDescription(n), env.getLink(n), env.getAuthor(n), env.getImage(n),
                 None, None, None, None, None, None)
  }

  /** `Object.assign(item, fields)`: the fields a sub-tag returns replace those of the item. */
  function MergeLiveItem(item: LiveItemItem, p: LiveItemPatch): LiveItemItem {
    LiveItemItem(
      p.guid.GetOr(item.guid),
      p.title.GetOr(item.title),
      p.enclosure.GetOr(item.enclosure),
      if p.description.Some? then p.description else item.description,
      if p.link.Some? then p.link else item.link,
      if p.author.Some? then p.author else item.author,
      if p.image.Some? then p.image else item.image,
      if p.podcastPeople.Some? then p.podcastPeople else item.podcastPeople,
      if p.alternativeEnclosures.Some? then p.alternativeEnclosures else item.alternativeEnclosures,
      if p.podcastImages.Some? then p.podcastImages else item.podcastImages,
      if p.value.Some? then p.value else item.value,
      if p.chat.Some? then p.chat else item.chat,
      if p.liveUpdates.Some? then p.liveUpdates else item.liveUpdates)
  }

  /** The chat fallback: an item without a chat takes the node's non-empty `chat` attribute as a phase-4 chat;
      nothing else of the item changes. */
  function ChatFallback(n: XmlNode, item: LiveItemItem): (r: LiveItemItem)
    ensures r.(chat := item.chat) == item
    ensures item.chat.Some? ==> r.chat == item.chat
    ensures item.chat.None? ==>
      r.chat == (if Truthy(GetAttribute(n, "chat")) then Some(Phase4Chat("4", n.attributes["chat"])) else None)
  {
    if item.chat.None? && Truthy(GetAttribute(n, "chat"))
    then item.(chat := Some(Phase4Chat("4", n.attributes["chat"])))
    else item
  }

  /** The item of a node after the sub-tags and the chat fallback. */
  function FinishedItem(env: Env, subs: seq<SubTag<LiveItemItem, LiveItemPatch>>, n: XmlNode): LiveItemItem
    requires HasBase(env, n)
  {
    ChatFallback(n, OverlayAll(subs, MergeLiveItem, n, BaseItem(env, n)))
  }

  /** `getContentLinks(node)`: one link per `<podcast:contentLink>` child, in order, titled by its trimmed
      text, pointing at its `href` or at "" when it has none. */
  function ContentLinks(n: XmlNode): (r: seq<ContentLink>)
    ensures |r| == |EnsureArray(Child(n, ContentLinkTag))|
    ensures forall k :: 0 <= k < |r| ==>
      var cl := EnsureArray(Child(n, ContentLinkTag))[k];
      && IsTrimmed(r[k].title)
      && r[k].title == Trim(cl.text)
      && r[k].url == (if "href" in cl.attributes then cl.attributes["href"] else "")
  {
    Map(ContentLinkOf, EnsureArray(Child(n, ContentLinkTag)))
  }

  function ContentLinkOf(cl: XmlNode): ContentLink {
    ContentLink(GetAttribute(cl, "href").GetOr(""), GetText(cl))
  }

  /** What the callback of the `map` in `liveItem.fn` returns for one node: `Success(None)` for the empty
      record of a node without guid, title or enclosure, `Failure` for what `getKnownAttribute` and
      `knownLookup` throw. */
  function LiveItemOf(env: Env, subs: seq<SubTag<LiveItemItem, LiveItemPatch>>, n: XmlNode): (r: Result<Option<LiveItem>, Thrown>)
    ensures r == Success(None) <==> !HasBase(env, n)
    ensures IsLiveCandidate(n) ==> r.Success?
    ensures r.Failure? ==>
      r.error == (if "status" !in n.attributes then MissingAttribute("status")
                  else if StatusLookup(Lower(n.attributes["status"])).None? then NotInEnum(Lower(n.attributes["status"]))
                  else MissingAttribute("start"))
    ensures r.Success? && r.value.Some? ==>
      var li := r.value.value;
      && HasBase(env, n)
      && "status" in n.attributes && "start" in n.attributes
      && StatusValue(li.status) == Lower(n.attributes["status"])
      && li.start == env.pubDateToDate(n.attributes["start"])
      && li.end == (if Truthy(GetAttribute(n, "end")) then Some(env.pubDateToDate(n.attributes["end"])) else None)
      && li.item == FinishedItem(env, subs, n)
      && li.contentLinks == ContentLinks(n)
  {
    if !HasBase(env, n) then Success(None)
    else
      var item := FinishedItem(env, subs, n);
      match KnownAttribute(n, "status")
      case Failure(e) => Failure(e)
      case Success(statusText) =>
        match StatusKnownLookup(Lower(statusText))
        case Failure(e) => Failure(e)
        case Success(status) =>
          match KnownAttribute(n, "start")
          case Failure(e) => Failure(e)
          case Success(startText) =>
            var end := if Truthy(GetAttribute(n, "end")) then Some(env.pubDateToDate(n.attributes["end"])) else None;
            Success(Some(LiveItem(status, env.pubDateToDate(startText), end, item, ContentLinks(n))))
  }

  /** The callback of the `map` in `liveItem.fn`, as the source writes it: build the item, run the sub-tags
      registered under "liveItem" on it, apply the chat fallback, then read status, start and end. */
  method LiveItemOfNode(env: Env, subs: seq<SubTag<LiveItemItem, LiveItemPatch>>, n: XmlNode)
    returns (r: Result<Option<LiveItem>, Thrown>)
    ensures r == LiveItemOf(env, subs, n)
  {
    var guid := env.getGuid(n);
    var title := env.getTitle(n);
    var enclosure := env.getEnclosure(n);
    if !(Truthy(guid) && title.Some? && enclosure.Some?) {
      return Success(None);
    }
    var item := LiveItemItem(guid.value, title.value, enclosure.value,
                             env.getDescription(n), env.getLink(n), env.getAuthor(n), env.getImage(n),
                             None, None, None, None, None, None);
    item := ApplySubTags(subs, MergeLiveItem, n, item);
    var chatAttribute := GetAttribute(n, "chat");
    if item.chat.None? && Truthy(chatAttribute) {
      item := item.(chat := Some(Phase4Chat("4", chatAttribute.value)));
    }
    var statusText := KnownAttribute(n, "status");
    if statusText.Failure? {
      return Failure(statusText.error);
    }
    var status := StatusKnownLookup(Lower(statusText.value));
    if status.Failure? {
      return Failure(status.error);
    }
    var startText := KnownAttribute(n, "start");
    if startText.Failure? {
      return Failure(startText.error);
    }
    var end := None;
    if Truthy(GetAttribute(n, "end")) {
      end := Some(env.pubDateToDate(n.attributes["end"]));
    }
    r := Success(Some(LiveItem(status.value, env.pubDateToDate(startText.value), end, item, ContentLinks(n))));
  }

  /** `liveItem.fn`: the `map` over the nodes, which stops at the first node that throws, followed by the
      `filter` that drops the empty records. */
  function LiveItems(env: Env, subs: seq<SubTag<LiveItemItem, LiveItemPatch>>, nodes: seq<XmlNode>): Result<seq<LiveItem>, Thrown>
    decreases |nodes|
  {
    if nodes == [] then Success([])
    else
      match LiveItems(env, subs, nodes[..|nodes| - 1])
      case Failure(e) => Failure(e)
      case Success(items) =>
        match LiveItemOf(env, subs, nodes[|nodes| - 1])
        case Failure(e) => Failure(e)
        case Success(None) => Success(items)
        case Success(Some(li)) => Success(items + [li])
  }

  method LiveItemFn(env: Env, subs: seq<SubTag<LiveItemItem, LiveItemPatch>>, nodes: seq<XmlNode>)
    returns (r: Result<seq<LiveItem>, Thrown>)
    ensures r == LiveItems(env, subs, nodes)
  {
    var items: seq<LiveItem> := [];
    for i := 0 to |nodes|
      invariant LiveItems(env, subs, nodes[..i]) == Success(items)
    {
      assert nodes[..i + 1][..i] == nodes[..i];
      var one := LiveItemOfNode(env, subs, nodes[i]);
      if one.Failure? {
        assert LiveItems(env, subs, nodes[..i + 1]) == Failure(one.error);
        LiveItemsStopsAtFailure(env, subs, nodes, i + 1);
        return Failure(one.error);
      }
      if one.value.Some? {
        items := items + [one.value.value];
      }
    }
    assert nodes[..|nodes|] == nodes;
    r := Success(items);
  }

  /** Once a prefix of the nodes throws, the whole `map` throws the same error. */
  lemma {:induction false} LiveItemsStopsAtFailure(env: Env, subs: seq<SubTag<LiveItemItem, LiveItemPatch>>, nodes: seq<XmlNode>, m: nat)
    requires m <= |nodes|
    requires LiveItems(env, subs, nodes[..m]).Failure?
    ensures LiveItems(env, subs, nodes) == LiveItems(env, subs, nodes[..m])
    decreases |nodes| - m
  {
    if m < |nodes| {
      assert nodes[..m + 1][..m] == nodes[..m];
      LiveItemsStopsAtFailure(env, subs, nodes, m + 1);
    } else {
      assert nodes[..m] == nodes;
    }
  }

  /** One more node: the `map` throws if it threw before or throws on that node, and otherwise gains that
      node's live item, if it has one. */
  lemma LiveItemsSnoc(env: Env, subs: seq<SubTag<LiveItemItem, LiveItemPatch>>, init: seq<XmlNode>, last: XmlNode)
    ensures var one := LiveItemOf(env, subs, last);
      LiveItems(env, subs, init + [last]) ==
        if LiveItems(env, subs, init).Failure? then LiveItems(env, subs, init)
        else if one.Failure? then Failure(one.error)
        else Success(LiveItems(env, subs, init).value + (if one.value.Some? then [one.value.value] else []))
  {
    assert (init + [last])[..|init|] == init;
    assert (init + [last])[|init|] == last;
    if LiveItems(env, subs, init).Success? && LiveItemOf(env, subs, last) == Success(None) {
      assert LiveItems(env, subs, init).value + [] == LiveItems(env, subs, init).value;
    }
  }

  /** Over nodes that all passed the transform, `fn` never throws: it yields one live item per node with
      a guid, a title and an enclosure, in document order, each the record `LiveItemOf` describes. */
  lemma {:induction false} CandidatesYieldItems(env: Env, subs: seq<SubTag<LiveItemItem, LiveItemPatch>>, nodes: seq<XmlNode>)
    requires forall k :: 0 <= k < |nodes| ==> IsLiveCandidate(nodes[k])
    ensures LiveItems(env, subs, nodes).Success?
    ensures var items := LiveItems(env, subs, nodes).value;
            var kept := Filter(HasBaseFn(env), nodes);
            && |items| == |kept|
            && forall k :: 0 <= k < |items| ==> LiveItemOf(env, subs, kept[k]) == Success(Some(items[k]))
    decreases |nodes|
  {
    if nodes != [] {
      var init, last := nodes[..|nodes| - 1], nodes[|nodes| - 1];
      assert nodes == init + [last];
      CandidatesYieldItems(env, subs, init);
      LiveItemsSnoc(env, subs, init, last);
      var one := LiveItemOf(env, subs, last);
      assert one.Success? && (one.value.Some? <==> HasBase(env, last));
      var before := LiveItems(env, subs, init).value;
      var keptBefore := Filter(HasBaseFn(env), init);
      var extra: seq<XmlNode> := if HasBase(env, last) then [last] else [];
      assert Filter(HasBaseFn(env), nodes) == keptBefore + extra by {
        FilterAppend(HasBaseFn(env), init, [last]);
        assert Filter(HasBaseFn(env), [last]) == extra;
      }
      var added: seq<LiveItem> := if one.value.Some? then [one.value.value] else [];
      assert LiveItems(env, subs, nodes) == Success(before + added);
      forall k | 0 <= k < |before + added|
        ensures LiveItemOf(env, subs, (keptBefore + extra)[k]) == Success(Some((before + added)[k]))
      {
        if k < |before| {
          assert (keptBefore + extra)[k] == keptBefore[k];
          assert (before + added)[k] == before[k];
        } else {
          assert (keptBefore + extra)[k] == last;
          assert (before + added)[k] == one.value.value;
        }
      }
    }
  }

  /** The descriptor as a whole: transform, then the support check (some candidate), then `fn`; `None`
      when the tag contributes nothing. */
  function UseLiveItem(env: Env, subs: seq<SubTag<LiveItemItem, LiveItemPatch>>, child: Option<Shape>): Option<Result<seq<LiveItem>, Thrown>> {
    var nodes := LiveItemTransform(child);
    if LiveItemSupported(nodes) then Some(LiveItems(env, subs, nodes)) else None
  }

  /** The live items of a feed: present exactly when some `<podcast:liveItem>` is a candidate, never a
      thrown error, one per candidate with a guid, a title and an enclosure, in document order, each with
      the status its `status` attribute names whatever its case. */
  lemma {:induction false} LiveItemsOfFeed(env: Env, subs: seq<SubTag<LiveItemItem, LiveItemPatch>>, child: Option<Shape>)
    ensures UseLiveItem(env, subs, child).Some? <==>
      exists i :: 0 <= i < |EnsureArray(child)| && IsLiveCandidate(EnsureArray(child)[i])
    ensures UseLiveItem(env, subs, child).Some? ==>
      var r := UseLiveItem(env, subs, child).value;
      var kept := Filter(HasBaseFn(env), LiveItemTransform(child));
      && r.Success?
      && |r.value| == |kept|
      && forall k :: 0 <= k < |r.value| ==>
           && kept[k] in EnsureArray(child)
           && IsLiveCandidate(kept[k]) && HasBase(env, kept[k])
           && StatusValue(r.value[k].status) == Lower(kept[k].attributes["status"])
           && LiveItemOf(env, subs, kept[k]) == Success(Some(r.value[k]))
  {
    var nodes := LiveItemTransform(child);
    if LiveItemSupported(nodes) {
      CandidatesYieldItems(env, subs, nodes);
      var items := LiveItems(env, subs, nodes).value;
      var kept := Filter(HasBaseFn(env), nodes);
      FilterKeepsExactly(HasBaseFn(env), nodes);
      forall k | 0 <= k < |items|
        ensures kept[k] in EnsureArray(child) && IsLiveCandidate(kept[k]) && HasBase(env, kept[k])
        ensures StatusValue(items[k].status) == Lower(kept[k].attributes["status"])
      {
        assert kept[k] in kept;
        assert HasBaseFn(env)(kept[k]);
        assert LiveItemOf(env, subs, kept[k]) == Success(Some(items[k]));
      }
    }
  }

  /** The chat of a live item: the one the last sub-tag that set a chat returned; when no sub-tag set one,
      the node's non-empty `chat` attribute as a phase-4 chat, and no chat otherwise. */
  lemma {:induction false} ChatOfLiveItem(env: Env, subs: seq<SubTag<LiveItemItem, LiveItemPatch>>, n: XmlNode)
    requires HasBase(env, n)
    ensures var chat := FinishedItem(env, subs, n).chat;
      (forall k :: 0 <= k < |subs| ==>
         Contribution(subs, MergeLiveItem, n, BaseItem(env, n), k).None?
         || Contribution(subs, MergeLiveItem, n, BaseItem(env, n), k).value.chat.None?)
      ==> chat == (if Truthy(GetAttribute(n, "chat")) then Some(Phase4Chat("4", n.attributes["chat"])) else None)
    ensures var chat := FinishedItem(env, subs, n).chat;
      forall k :: 0 <= k < |subs|
        && Contribution(subs, MergeLiveItem, n, BaseItem(env, n), k).Some?
        && Contribution(subs, MergeLiveItem, n, BaseItem(env, n), k).value.chat.Some?
        && (forall j :: k < j < |subs| ==>
              Contribution(subs, MergeLiveItem, n, BaseItem(env, n), j).None?
              || Contribution(subs, MergeLiveItem, n, BaseItem(env, n), j).value.chat.None?)
        ==> chat == Contribution(subs, MergeLiveItem, n, BaseItem(env, n), k).value.chat
  {
    var getS := (s: LiveItemItem) => s.chat;
    var getP := (p: LiveItemPatch) => p.chat;
    assert IsField(MergeLiveItem, getS, getP);
    var base := BaseItem(env, n);
    if forall k :: 0 <= k < |subs| ==>
         Contribution(subs, MergeLiveItem, n, base, k).None?
         || Contribution(subs, MergeLiveItem, n, base, k).value.chat.None?
    {
      UntouchedFieldKept(subs, MergeLiveItem, n, base, getS, getP);
    }
    forall k | 0 <= k < |subs|
        && Contribution(subs, MergeLiveItem, n, base, k).Some?
        && Contribution(subs, MergeLiveItem, n, base, k).value.chat.Some?
        && (forall j :: k < j < |subs| ==>
              Contribution(subs, MergeLiveItem, n, base, j).None?
              || Contribution(subs, MergeLiveItem, n, base, j).value.chat.None?)
      ensures FinishedItem(env, subs, n).chat == Contribution(subs, MergeLiveItem, n, base, k).value.chat
    {
      LastWriterWins(subs, MergeLiveItem, n, base, getS, getP, k);
    }
  }

  /** The guid, title and enclosure of a live item are the item parser's unless a sub-tag replaced them. */
  lemma {:induction false} BaseFieldsKept(env: Env, subs: seq<SubTag<LiveItemItem, LiveItemPatch>>, n: XmlNode)
    requires HasBase(env, n)
    requires forall k :: 0 <= k < |subs| ==>
      var c := Contribution(subs, MergeLiveItem, n, BaseItem(env, n), k);
      c.None? || (c.value.guid.None? && c.value.title.None? && c.value.enclosure.None?)
    ensures var item := FinishedItem(env, subs, n);
      && item.guid == env.getGuid(n).value && item.guid != ""
      && item.title == env.getTitle(n).value
      && item.enclosure == env.getEnclosure(n).value
  {
    var base := BaseItem(env, n);
    var guidS := (s: LiveItemItem) => Some(s.guid);
    var guidP := (p: LiveItemPatch) => p.guid;
    assert IsField(MergeLiveItem, guidS, guidP);
    UntouchedFieldKept(subs, MergeLiveItem, n, base, guidS, guidP);
    var titleS := (s: LiveItemItem) => Some(s.title);
    var titleP := (p: LiveItemPatch) => p.title;
    assert IsField(MergeLiveItem, titleS, titleP);
    UntouchedFieldKept(subs, MergeLiveItem, n, base, titleS, titleP);
    var enclosureS := (s: LiveItemItem) => Some(s.enclosure);
    var enclosureP := (p: LiveItemPatch) => p.enclosure;
    assert IsField(MergeLiveItem, enclosureS, enclosureP);
    UntouchedFieldKept(subs, MergeLiveItem, n, base, enclosureS, enclosureP);
  }

  /** Appending nodes appends their items: each node's live item depends on that node alone. */
  lemma {:induction false} LiveItemsAppend(env: Env, subs: seq<SubTag<LiveItemItem, LiveItemPatch>>, a: seq<XmlNode>, b: seq<XmlNode>)
    requires LiveItems(env, subs, a).Success? && LiveItems(env, subs, b).Success?
    ensures LiveItems(env, subs, a + b) == Success(LiveItems(env, subs, a).value + LiveItems(env, subs, b).value)
    decreases |b|
  {
    if b == [] {
      assert a + b == a;
      assert LiveItems(env, subs, a).value + [] == LiveItems(env, subs, a).value;
    } else {
      var init, last := b[..|b| - 1], b[|b| - 1];
      assert (a + b)[..|a + b| - 1] == a + init;
      assert (a + b)[|a + b| - 1] == last;
      LiveItemsAppend(env, subs, a, init);
      var x, y := LiveItems(env, subs, a).value, LiveItems(env, subs, init).value;
      if LiveItemOf(env, subs, last).value.Some? {
        AppendAssoc(x, y, [LiveItemOf(env, subs, last).value.value]);
      }
    }
  }

  /** With the two descriptors this phase registers under "liveItem" (`value`, then `podcastImages`), a live
      item keeps the item parser's fields and gains the value of its first supported `<podcast:value>` and
      the images of its first `<podcast:images>` with a `srcset`; its chat is the attribute fallback. */
  lemma {:induction false} PhaseFourSubTags(env: Env, valueSubs: seq<SubTag<ValuePatch, ValuePatch>>, n: XmlNode)
    requires HasBase(env, n)
    ensures var item := FinishedItem(env, [ValueForLiveItem(env, valueSubs), ImagesForLiveItem()], n);
      var first := FirstIfArray(Child(n, ValueTag));
      var images := ImagesTransform(Child(n, ImagesTag));
      && item.(value := None, podcastImages := None, chat := None) == BaseItem(env, n)
      && item.value == (if first.Some? && ValueSupported(env, first.value) then Some(ValueOf(env, valueSubs, first.value).value) else None)
      && item.podcastImages == (if images.Some? then Some(ParseSrcset(images.value.attributes["srcset"])) else None)
      && item.chat == (if Truthy(GetAttribute(n, "chat")) then Some(Phase4Chat("4", n.attributes["chat"])) else None)
  {
    var v, i := ValueForLiveItem(env, valueSubs), ImagesForLiveItem();
    var subs := [v, i];
    var base := BaseItem(env, n);
    assert subs[..1] == [v] && [v][..0] == [];
    var afterValue := Use(v, MergeLiveItem, n, base);
    assert OverlayAll([v], MergeLiveItem, n, base) == afterValue;
    assert OverlayAll(subs, MergeLiveItem, n, base) == Use(i, MergeLiveItem, n, afterValue);
  }
}
