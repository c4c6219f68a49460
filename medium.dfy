/**
 * The `<podcast:medium>` descriptor (src/parser/phase/phase-4/phase-4.ts, `medium`): the first
 * medium element whose text names a member of the medium vocabulary, whatever its case.
 */
module Phase4Medium {
  import opened Wrappers
  import opened Seqs
  import opened JsStrings
  import opened Xml
  import opened Phase4Types

  /** The test `medium.nodeTransform` applies to each candidate node. */
  predicate NamesMedium(n: XmlNode) {
    GetText(n) != "" && MediumLookup(Lower(GetText(n))).Some?
  }

  /** `medium.nodeTransform`: the first node, in document order, whose lower-cased text is a medium. */
  function MediumTransform(child: Option<Shape>): (r: Option<XmlNode>)
    ensures r.Some? ==> exists i :: 0 <= i < |EnsureArray(child)| && EnsureArray(child)[i] == r.value
                                    && NamesMedium(r.value)
                                    && forall j :: 0 <= j < i ==> !NamesMedium(EnsureArray(child)[j])
    ensures r.None? <==> forall i :: 0 <= i < |EnsureArray(child)| ==> !NamesMedium(EnsureArray(child)[i])
  {
    Find(NamesMedium, EnsureArray(child))
  }

  /** `medium.supportCheck`. */
  predicate MediumSupported(n: XmlNode) {
    GetText(n) != ""
  }

  /** `medium.fn`: the member the lower-cased text names; throws when it names none. */
  function MediumFn(n: XmlNode): (r: Result<Medium, Thrown>)
    ensures r.Success? <==> NamesMedium(n)
    ensures r.Success? ==> MediumValue(r.value) == Lower(GetText(n))
    ensures r.Failure? ==> r.error == UnextractableMedium
  {
    var text := GetText(n);
    if text != "" then
      match MediumLookup(Lower(text))
      case Some(m) => Success(m)
      case None => Failure(UnextractableMedium)
    else Failure(UnextractableMedium)
  }

  /** The descriptor as a whole: transform, then the support check, then `fn`; `None` when the tag contributes nothing. */
  function UseMedium(child: Option<Shape>): Option<Result<Medium, Thrown>> {
    match MediumTransform(child)
    case None => None
    case Some(n) => if MediumSupported(n) then Some(MediumFn(n)) else None
  }

  /** The transform only hands `fn` nodes it accepts, so `fn` never reaches its throw: the tag yields the
      medium of the first node naming one, and nothing when no node does. */
  lemma {:induction false} MediumNeverThrows(child: Option<Shape>)
    ensures UseMedium(child).Some? <==> exists i :: 0 <= i < |EnsureArray(child)| && NamesMedium(EnsureArray(child)[i])
    ensures UseMedium(child).Some? ==> UseMedium(child).value.Success?
    ensures UseMedium(child).Some? ==>
      exists i :: 0 <= i < |EnsureArray(child)|
        && MediumValue(UseMedium(child).value.value) == Lower(GetText(EnsureArray(child)[i]))
        && forall j :: 0 <= j < i ==> !NamesMedium(EnsureArray(child)[j])
  {
    var nodes := EnsureArray(child);
    var r := MediumTransform(child);
    if r.Some? {
      var n := r.value;
      var i :| 0 <= i < |nodes| && nodes[i] == n && NamesMedium(n)
               && forall j :: 0 <= j < i ==> !NamesMedium(nodes[j]);
      var m := MediumFn(n);
      assert UseMedium(child) == Some(m) by {
        assert MediumSupported(n);
      }
      assert m.Success? && MediumValue(m.value) == Lower(GetText(nodes[i]));
    }
  }

  /** The medium of a node depends only on its text once trimmed, in any case: the text names a member
      exactly when it spells that member's value letter by letter, each letter in either case
      ("Podcast", "MUSIC" and "video" all name a medium). */
  lemma {:induction false} MediumIgnoresCase(n: XmlNode, m: Medium)
    ensures MediumFn(n) == Success(m) <==>
      |GetText(n)| == |MediumValue(m)| && forall i :: 0 <= i < |GetText(n)| ==> CaseVariant(GetText(n)[i], MediumValue(m)[i])
  {
    var text := GetText(n);
    MediumFnIsLowered(n, m);
    MediumValueAscii(m);
    LowerMatches(text, MediumValue(m));
  }

  lemma {:induction false} MediumFnIsLowered(n: XmlNode, m: Medium)
    ensures MediumFn(n) == Success(m) <==> Lower(GetText(n)) == MediumValue(m)
  {
    var text := GetText(n);
    if Lower(text) == MediumValue(m) {
      assert |Lower(text)| == |text|;
      MediumValueNonEmpty(m);
      var r := MediumFn(n);
      MediumValueInjective(r.value, m);
    }
  }

  /** Text that spells no member's value, in any case, makes `fn` throw. */
  lemma {:induction false} MediumUnknownThrows(n: XmlNode)
    ensures MediumFn(n).Failure? <==> forall m: Medium :: Lower(GetText(n)) != MediumValue(m)
  {
    var text := GetText(n);
    if text == "" {
      assert Lower(text) == "";
      forall m: Medium ensures Lower(text) != MediumValue(m) {
        MediumValueNonEmpty(m);
      }
    }
  }

  lemma MediumValueNonEmpty(m: Medium)
    ensures MediumValue(m) != ""
  {
  }

  /** White space around the text of a medium element does not change its medium. */
  lemma {:induction false} MediumIgnoresPadding(pre: string, text: string, post: string,
                                                attributes: map<string, string>, children: map<string, Shape>)
    requires AllSpace(pre) && AllSpace(post) && text != "" && IsTrimmed(text)
    ensures MediumFn(XmlNode(attributes, pre + text + post, children)) == MediumFn(XmlNode(attributes, text, children))
  {
    TrimPadding(pre, text, post);
    TrimOfTrimmed(text);
  }
}
