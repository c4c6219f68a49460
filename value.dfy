/**
 * The `<podcast:value>` descriptor (src/parser/phase/phase-4/phase-4.ts, `value`): the payment
 * layer, transport method, optional suggested amount and recipients of a feed or live item,
 * overlaid with whatever the sub-tags registered under "value" produce.
 */
module Phase4Value {
  import opened Wrappers
  import opened Seqs
  import opened Xml
  import opened Phase4Types
  import opened Collaborators
  import opened SubTags

  const ValueTag := "podcast:value"
  const RecipientTag := "podcast:valueRecipient"

  function RecipientNodes(n: XmlNode): seq<XmlNode> {
    EnsureArray(Child(n, RecipientTag))
  }

  /** `value.supportCheck`. */
  predicate ValueSupported(env: Env, n: XmlNode) {
    Truthy(GetAttribute(n, "type"))
    && Truthy(GetAttribute(n, "method"))
    && |Filter(env.validRecipient, RecipientNodes(n))| > 0
  }

  /** The support check holds exactly when `type` and `method` are non-empty and some recipient is valid. */
  lemma {:induction false} ValueSupportedIff(env: Env, n: XmlNode)
    ensures ValueSupported(env, n) <==>
      "type" in n.attributes && n.attributes["type"] != ""
      && "method" in n.attributes && n.attributes["method"] != ""
      && exists k :: 0 <= k < |RecipientNodes(n)| && env.validRecipient(RecipientNodes(n)[k])
  {
    FilterKeepsExactly(env.validRecipient, RecipientNodes(n));
  }

  /** `extractRecipients(nodes)`: one recipient per valid node, in document order. */
  function ExtractRecipients(env: Env, nodes: seq<XmlNode>): (r: seq<Recipient>)
    ensures r == Map(env.recipientOf, Filter(env.validRecipient, nodes))
    ensures |r| == |Filter(env.validRecipient, nodes)|
    ensures forall k :: 0 <= k < |r| ==>
      exists i :: 0 <= i < |nodes| && env.validRecipient(nodes[i]) && r[k] == env.recipientOf(nodes[i])
  {
    var valid := Filter(env.validRecipient, nodes);
    FilterKeepsExactly(env.validRecipient, nodes);
    assert forall k :: 0 <= k < |valid| ==> valid[k] in nodes;
    Map(env.recipientOf, valid)
  }

  /** `Object.assign(item, fields)` on a partial value record. */
  function MergeValuePatch(a: ValuePatch, p: ValuePatch): ValuePatch {
    ValuePatch(
      if p.valueType.Some? then p.valueType else a.valueType,
      if p.valueMethod.Some? then p.valueMethod else a.valueMethod,
      if p.suggested.Some? then p.suggested else a.suggested,
      if p.recipients.Some? then p.recipients else a.recipients,
      if p.valueTimeSplits.Some? then p.valueTimeSplits else a.valueTimeSplits)
  }

  /** `{ ...v, ...item }`: the fields `item` holds replace those of `v`. */
  function SpreadValue(v: Value, item: ValuePatch): Value {
    Value(
      item.valueType.GetOr(v.valueType),
      item.valueMethod.GetOr(v.valueMethod),
      if item.suggested.Some? then item.suggested else v.suggested,
      item.recipients.GetOr(v.recipients),
      if item.valueTimeSplits.Some? then item.valueTimeSplits else v.valueTimeSplits)
  }

  /** The record the sub-tags registered under "value" build, starting from `{}`. */
  function SubTagFields(subs: seq<SubTag<ValuePatch, ValuePatch>>, n: XmlNode): ValuePatch {
    OverlayAll(subs, MergeValuePatch, n, EmptyValuePatch)
  }

  /** What `value.fn` returns for a node, or the error it throws. */
  function ValueOf(env: Env, subs: seq<SubTag<ValuePatch, ValuePatch>>, n: XmlNode): (r: Result<Value, Thrown>)
    ensures r.Success? <==> "type" in n.attributes && "method" in n.attributes
    ensures r.Failure? ==> r.error == MissingAttribute(if "type" in n.attributes then "method" else "type")
    ensures ValueSupported(env, n) ==> r.Success?
  {
    var item := SubTagFields(subs, n);
    match KnownAttribute(n, "type")
    case Failure(e) => Failure(e)
    case Success(t) =>
      match KnownAttribute(n, "method")
      case Failure(e) => Failure(e)
      case Success(m) =>
        Success(SpreadValue(Value(t, m, FloatAttribute(env, n, "suggested"),
                                  ExtractRecipients(env, RecipientNodes(n)), None), item))
  }

  /** `value.fn`: runs the sub-tags registered under "value" on a fresh record, then builds the value. */
  method ValueFn(env: Env, subs: seq<SubTag<ValuePatch, ValuePatch>>, n: XmlNode) returns (r: Result<Value, Thrown>)
    ensures r == ValueOf(env, subs, n)
  {
    var item := ApplySubTags(subs, MergeValuePatch, n, EmptyValuePatch);
    var t := KnownAttribute(n, "type");
    if t.Failure? {
      return Failure(t.error);
    }
    var m := KnownAttribute(n, "method");
    if m.Failure? {
      return Failure(m.error);
    }
    var v := Value(t.value, m.value, FloatAttribute(env, n, "suggested"),
                   ExtractRecipients(env, RecipientNodes(n)), None);
    r := Success(SpreadValue(v, item));
  }

  /** Each field of the value comes from the sub-tags when one of them set it, and from the node otherwise;
      when no sub-tag replaced the recipients, a node that passed the support check has at least one. */
  lemma {:induction false} ValueRecord(env: Env, subs: seq<SubTag<ValuePatch, ValuePatch>>, n: XmlNode)
    requires ValueSupported(env, n)
    ensures var v := ValueOf(env, subs, n).value;
            var item := SubTagFields(subs, n);
            && v.valueType == item.valueType.GetOr(n.attributes["type"])
            && v.valueMethod == item.valueMethod.GetOr(n.attributes["method"])
            && v.suggested == (if item.suggested.Some? then item.suggested else FloatAttribute(env, n, "suggested"))
            && v.recipients == item.recipients.GetOr(ExtractRecipients(env, RecipientNodes(n)))
            && v.valueTimeSplits == item.valueTimeSplits
            && (item.recipients.None? ==> |v.recipients| > 0)
  {
  }

  /** A field that no sub-tag registered under "value" sets is the one read from the node; the sub-tag
      registered last among those that set it decides it otherwise. Shown for the recipients. */
  lemma {:induction false} RecipientsFromLastSubTag(env: Env, subs: seq<SubTag<ValuePatch, ValuePatch>>, n: XmlNode)
    requires ValueSupported(env, n)
    ensures var v := ValueOf(env, subs, n).value;
      (forall k :: 0 <= k < |subs| ==>
         Contribution(subs, MergeValuePatch, n, EmptyValuePatch, k).None?
         || Contribution(subs, MergeValuePatch, n, EmptyValuePatch, k).value.recipients.None?)
      ==> v.recipients == ExtractRecipients(env, RecipientNodes(n)) && |v.recipients| > 0
    ensures var v := ValueOf(env, subs, n).value;
      forall k :: 0 <= k < |subs|
        && Contribution(subs, MergeValuePatch, n, EmptyValuePatch, k).Some?
        && Contribution(subs, MergeValuePatch, n, EmptyValuePatch, k).value.recipients.Some?
        && (forall j :: k < j < |subs| ==>
              Contribution(subs, MergeValuePatch, n, EmptyValuePatch, j).None?
              || Contribution(subs, MergeValuePatch, n, EmptyValuePatch, j).value.recipients.None?)
        ==> v.recipients == Contribution(subs, MergeValuePatch, n, EmptyValuePatch, k).value.recipients.value
  {
    var getS := (s: ValuePatch) => s.recipients;
    assert IsField(MergeValuePatch, getS, getS);
    if forall k :: 0 <= k < |subs| ==>
         Contribution(subs, MergeValuePatch, n, EmptyValuePatch, k).None?
         || Contribution(subs, MergeValuePatch, n, EmptyValuePatch, k).value.recipients.None?
    {
      UntouchedFieldKept(subs, MergeValuePatch, n, EmptyValuePatch, getS, getS);
    }
    forall k | 0 <= k < |subs|
        && Contribution(subs, MergeValuePatch, n, EmptyValuePatch, k).Some?
        && Contribution(subs, MergeValuePatch, n, EmptyValuePatch, k).value.recipients.Some?
        && (forall j :: k < j < |subs| ==>
              Contribution(subs, MergeValuePatch, n, EmptyValuePatch, j).None?
              || Contribution(subs, MergeValuePatch, n, EmptyValuePatch, j).value.recipients.None?)
      ensures ValueOf(env, subs, n).value.recipients
              == Contribution(subs, MergeValuePatch, n, EmptyValuePatch, k).value.recipients.value
    {
      LastWriterWins(subs, MergeValuePatch, n, EmptyValuePatch, getS, getS, k);
    }
  }

  /** `addSubTag("liveItem", value)`: inside a live item the descriptor reads the first `<podcast:value>`
      child and, when it passes the support check, contributes the `value` field and nothing else. */
  function ValueForLiveItem(env: Env, subs: seq<SubTag<ValuePatch, ValuePatch>>): (d: SubTag<LiveItemItem, LiveItemPatch>)
    ensures d.tag == ValueTag
    ensures forall child, item :: d.run(child, item).Some? <==>
      FirstIfArray(child).Some? && ValueSupported(env, FirstIfArray(child).value)
    ensures forall child, item :: d.run(child, item).Some? ==>
      d.run(child, item) == Some(EmptyLiveItemPatch.(value := Some(ValueOf(env, subs, FirstIfArray(child).value).value)))
  {
    SubTag(ValueTag, (child: Option<Shape>, item: LiveItemItem) =>
      var node := FirstIfArray(child);
      if node.Some? && ValueSupported(env, node.value)
      then Some(EmptyLiveItemPatch.(value := Some(ValueOf(env, subs, node.value).value)))
      else None)
  }
}
