/**
 * The `<podcast:images>` descriptor (src/parser/phase/phase-4/phase-4.ts, `podcastImages`): the
 * `srcset` attribute, a comma-separated list of image descriptors in the manner of the `srcset`
 * attribute of the WHATWG HTML Living Standard (section 4.8.4.2), of which only a simplified subset
 * is recognised: "url", "url <n>w" and "url <d>x".
 */
module Phase4Images {
  import opened Wrappers
  import opened Seqs
  import opened JsStrings
  import opened Xml
  import opened Phase4Types
  import opened SubTags

  const ImagesTag := "podcast:images"

  predicate HasSrcset(n: XmlNode) {
    Truthy(GetAttribute(n, "srcset"))
  }

  /** `podcastImages.nodeTransform`: the first node, in document order, with a non-empty `srcset`. */
  function ImagesTransform(child: Option<Shape>): (r: Option<XmlNode>)
    ensures r.Some? ==> exists i :: 0 <= i < |EnsureArray(child)| && EnsureArray(child)[i] == r.value
                                    && HasSrcset(r.value)
                                    && forall j :: 0 <= j < i ==> !HasSrcset(EnsureArray(child)[j])
    ensures r.None? <==> forall i :: 0 <= i < |EnsureArray(child)| ==> !HasSrcset(EnsureArray(child)[i])
  {
    Find(HasSrcset, EnsureArray(child))
  }

  /** The classification of one trimmed descriptor: two white-space separated tokens are a url and a
      width (`w`) or density (`x`) hint, and anything else is a url alone. */
  function ParseDescriptor(raw: string): (p: ParsedImage)
    ensures p.url == (if |SplitWs(raw)| == 2 then SplitWs(raw)[0] else raw)
  {
    var components := SplitWs(raw);
    if |components| == 2 then
      var hint := components[1];
      if EndsWith(hint, 'w') then WidthImage(components[0], ParseInt(hint[..|hint| - 1]))
      else if EndsWith(hint, 'x') then DensityImage(components[0], ParseFloat(hint[..|hint| - 1]))
      else UrlImage(components[0])
    else UrlImage(raw)
  }

  /** Every image parsed from a non-blank trimmed descriptor has a non-empty url. */
  lemma {:induction false} DescriptorUrlNonEmpty(raw: string)
    requires raw != "" && IsTrimmed(raw)
    ensures ParseDescriptor(raw).url != ""
  {
    SplitWsOfTrimmed(raw);
  }

  /** The descriptors for which the parser logs "Unexpected descriptor": two tokens, the second ending in neither `w` nor `x`. */
  predicate WarnsUnexpected(raw: string) {
    var components := SplitWs(raw);
    |components| == 2 && !EndsWith(components[1], 'w') && !EndsWith(components[1], 'x')
  }

  function Entry(raw: string): PodcastImage {
    PodcastImage(raw, ParseDescriptor(raw))
  }

  predicate NonEmpty(s: string) {
    s != ""
  }

  /** The callback of the `reduce`: a part that is not blank once trimmed adds one entry. */
  function Step(acc: seq<PodcastImage>, part: string): seq<PodcastImage> {
    var raw := Trim(part);
    if raw != "" then acc + [Entry(raw)] else acc
  }

  /** What one part adds: its entry when it is not blank once trimmed, nothing otherwise. */
  function Contributed(part: string): seq<PodcastImage> {
    if Trim(part) != "" then [Entry(Trim(part))] else []
  }

  /** `parts.reduce(Step, acc)`. */
  function Reduce(acc: seq<PodcastImage>, parts: seq<string>): seq<PodcastImage>
    decreases |parts|
  {
    if parts == [] then acc else Reduce(Step(acc, parts[0]), parts[1..])
  }

  /** The images the `reduce` builds, stated without an accumulator: what each part adds, in order. */
  function Entries(parts: seq<string>): seq<PodcastImage> {
    FlatMap(Contributed, parts)
  }

  lemma EntriesCons(p: string, rest: seq<string>)
    ensures Entries([p] + rest) == Contributed(p) + Entries(rest)
  {
    FlatMapCons(Contributed, p, rest);
  }

  /** The same images, as array operations: trim every part, keep those that are not blank, classify each. */
  lemma EntriesAreFilteredTrims(parts: seq<string>)
    ensures Entries(parts) == Map(Entry, Filter(NonEmpty, Map(Trim, parts)))
  {
    FlatMapAsFilter(Contributed, Trim, NonEmpty, Entry, parts);
  }

  /** One more part, folded first, adds its entry ahead of those of the parts after it. */
  lemma StepThenEntries(acc: seq<PodcastImage>, p: string, rest: seq<string>)
    ensures Step(acc, p) + Entries(rest) == acc + Entries([p] + rest)
  {
    var head := Contributed(p);
    assert Step(acc, p) == acc + head;
    var tail := Entries(rest);
    AppendAssoc(acc, head, tail);
    EntriesCons(p, rest);
  }

  lemma {:induction false} ReduceIsEntries(acc: seq<PodcastImage>, parts: seq<string>)
    ensures Reduce(acc, parts) == acc + Entries(parts)
    decreases |parts|
  {
    if parts == [] {
      assert Entries(parts) == [];
    } else {
      var p, rest := parts[0], parts[1..];
      assert parts == [p] + rest;
      ReduceIsEntries(Step(acc, p), rest);
      StepThenEntries(acc, p, rest);
    }
  }

  /** An image whose raw text is non-empty, trimmed and comma-free, and whose shape is that text's classification. */
  predicate WellFormedEntry(e: PodcastImage) {
    e.raw != "" && IsTrimmed(e.raw) && ',' !in e.raw && e.parsed == ParseDescriptor(e.raw)
  }

  lemma ContributedWellFormed(p: string)
    requires ',' !in p
    ensures forall k :: 0 <= k < |Contributed(p)| ==> WellFormedEntry(Contributed(p)[k])
  {
    var t := Trim(p);
    TrimKeepsOut(p, ',');
    if t != "" {
      assert WellFormedEntry(Entry(t));
      assert Contributed(p) == [Entry(t)];
    } else {
      assert Contributed(p) == [];
    }
  }

  /** Every entry built from comma-free parts is well formed. */
  lemma EntriesWellFormed(parts: seq<string>)
    requires forall i :: 0 <= i < |parts| ==> ',' !in parts[i]
    ensures forall k :: 0 <= k < |Entries(parts)| ==> WellFormedEntry(Entries(parts)[k])
  {
    forall i | 0 <= i < |parts|
      ensures forall k :: 0 <= k < |Contributed(parts[i])| ==> WellFormedEntry(Contributed(parts[i])[k])
    {
      ContributedWellFormed(parts[i]);
    }
    FlatMapAll(Contributed, parts, WellFormedEntry);
  }

  /** The images of a `srcset` value: one entry per comma-separated part that is not blank once trimmed,
      in order, whose raw text is that trimmed part (non-empty, trimmed, free of commas) and whose shape
      is its classification. */
  function ParseSrcset(srcset: string): (r: seq<PodcastImage>)
    ensures r == Entries(Split(srcset, ','))
    ensures forall k :: 0 <= k < |r| ==>
      r[k].raw != "" && IsTrimmed(r[k].raw) && ',' !in r[k].raw && r[k].parsed == ParseDescriptor(r[k].raw)
  {
    ReduceIsEntries([], Split(srcset, ','));
    EntriesWellFormed(Split(srcset, ','));
    Reduce([], Split(srcset, ','))
  }

  lemma TrimKeepsOut(s: string, c: char)
    requires c !in s
    ensures c !in Trim(s)
  {
    var a, b :| 0 <= a <= b <= |s| && Trim(s) == s[a..b];
  }

  /** Parsing the comma-join of trimmed, non-empty, comma-free descriptors gives back exactly those raw strings. */
  lemma {:induction false} SrcsetRawRoundTrip(raws: seq<string>)
    requires forall k :: 0 <= k < |raws| ==> raws[k] != "" && IsTrimmed(raws[k]) && ',' !in raws[k]
    ensures ParseSrcset(Join(raws, ',')) == Map(Entry, raws)
  {
    if raws == [] {
      assert Split("", ',') == [""];
      assert Map(Trim, [""]) == [""] by {
        TrimOfTrimmed("");
      }
    } else {
      SplitJoin(raws, ',');
      EntriesAreFilteredTrims(raws);
      forall k | 0 <= k < |raws| ensures Trim(raws[k]) == raws[k] {
        TrimOfTrimmed(raws[k]);
      }
      assert Map(Trim, raws) == raws;
      FilterAll(NonEmpty, raws);
    }
  }

  /** A lone token is a url-only image. */
  lemma {:induction false} DescriptorOneToken(url: string)
    requires url != "" && NoSpace(url)
    ensures ParseDescriptor(url) == UrlImage(url)
    ensures !WarnsUnexpected(url)
  {
    SplitWsJoin([url]);
  }

  /** A url and a hint separated by any run of white space: a hint ending in `w` is a width, parsed as an
      integer without its `w`; otherwise one ending in `x` is a density without its `x`; otherwise the
      image is the url alone, with a warning. */
  lemma {:induction false} DescriptorTwoTokens(url: string, sep: string, hint: string)
    requires url != "" && NoSpace(url) && hint != "" && NoSpace(hint)
    requires sep != "" && AllSpace(sep)
    ensures var p := ParseDescriptor(url + sep + hint);
      && (EndsWith(hint, 'w') ==> p == WidthImage(url, ParseInt(hint[..|hint| - 1])))
      && (!EndsWith(hint, 'w') && EndsWith(hint, 'x') ==> p == DensityImage(url, ParseFloat(hint[..|hint| - 1])))
      && (!EndsWith(hint, 'w') && !EndsWith(hint, 'x') ==> p == UrlImage(url))
    ensures WarnsUnexpected(url + sep + hint) <==> !EndsWith(hint, 'w') && !EndsWith(hint, 'x')
  {
    SplitWsSeparated(url, sep, hint);
    SplitWsInterleave([hint], []);
    assert SplitWs(url + sep + hint) == [url, hint];
  }

  /** Three tokens or more, whatever white space separates them, are not classified: the url is the whole
      descriptor, not its first token. */
  lemma {:induction false} DescriptorManyTokens(tokens: seq<string>, seps: seq<string>)
    requires |tokens| >= 3 && |seps| == |tokens| - 1
    requires forall k :: 0 <= k < |tokens| ==> tokens[k] != "" && NoSpace(tokens[k])
    requires forall k :: 0 <= k < |seps| ==> seps[k] != "" && AllSpace(seps[k])
    ensures ParseDescriptor(Interleave(tokens, seps)) == UrlImage(Interleave(tokens, seps))
    ensures !WarnsUnexpected(Interleave(tokens, seps))
  {
    SplitWsInterleave(tokens, seps);
  }

  /** "url <n>w" is an image of width n. */
  lemma {:induction false} WidthDescriptor(url: string, sep: string, n: nat)
    requires url != "" && NoSpace(url)
    requires sep != "" && AllSpace(sep)
    ensures ParseDescriptor(url + sep + Decimal(n) + "w") == WidthImage(url, Some(n))
  {
    var hint := Decimal(n) + "w";
    assert NoSpace(hint);
    assert url + sep + Decimal(n) + "w" == url + sep + hint;
    DescriptorTwoTokens(url, sep, hint);
    assert hint[..|hint| - 1] == Decimal(n) + "";
    ParseIntDecimal(n, "");
  }

  /** "url <d>x" is an image of density parseFloat(d). */
  lemma {:induction false} DensityDescriptor(url: string, sep: string, d: string)
    requires url != "" && NoSpace(url) && NoSpace(d)
    requires sep != "" && AllSpace(sep)
    ensures ParseDescriptor(url + sep + d + "x") == DensityImage(url, ParseFloat(d))
  {
    var hint := d + "x";
    assert NoSpace(hint);
    assert url + sep + d + "x" == url + sep + hint;
    DescriptorTwoTokens(url, sep, hint);
    assert hint[..|hint| - 1] == d;
  }

  lemma TrimOneSpace(s: string)
    requires s != "" && IsTrimmed(s)
    ensures Trim(" " + s) == s
  {
    assert (" " + s)[1..] == s;
    assert TrimStart(" " + s) == TrimStart(s) == s;
  }

  lemma EntriesOfThree(a: string, b: string, c: string)
    ensures Entries([a, b, c]) == Contributed(a) + Contributed(b) + Contributed(c)
  {
    FlatMapOfThree(Contributed, a, b, c);
  }

  lemma ContributedSpaced(z: string)
    requires z != "" && IsTrimmed(z)
    ensures Contributed(" " + z) == [Entry(z)]
  {
    TrimOneSpace(z);
  }

  lemma SplitOfThree(x: string, y: string, z: string)
    requires ',' !in x && ',' !in y && ',' !in z
    ensures Split(Join([x, " " + y, " " + z], ','), ',') == [x, " " + y, " " + z]
  {
    var py, pz := " " + y, " " + z;
    assert ',' !in py && ',' !in pz;
    SplitJoin([x, py, pz], ',');
  }

  lemma EntriesOfSpacedThree(x: string, y: string, z: string)
    requires x != "" && IsTrimmed(x)
    requires y != "" && IsTrimmed(y)
    requires z != "" && IsTrimmed(z)
    ensures Entries([x, " " + y, " " + z]) == [Entry(x), Entry(y), Entry(z)]
  {
    EntriesOfThree(x, " " + y, " " + z);
    TrimOfTrimmed(x);
    assert Contributed(x) == [Entry(x)];
    ContributedSpaced(y);
    ContributedSpaced(z);
    ConcatThree(Entry(x), Entry(y), Entry(z));
  }

  /** Three descriptors separated by a comma and a space parse to their three entries: the space after each
      comma is trimmed away. */
  lemma {:induction false} SrcsetOfThree(x: string, y: string, z: string)
    requires x != "" && IsTrimmed(x) && ',' !in x
    requires y != "" && IsTrimmed(y) && ',' !in y
    requires z != "" && IsTrimmed(z) && ',' !in z
    ensures ParseSrcset(Join([x, " " + y, " " + z], ',')) == [Entry(x), Entry(y), Entry(z)]
  {
    SplitOfThree(x, y, z);
    EntriesOfSpacedThree(x, y, z);
  }

  /** A width descriptor, a density descriptor and a bare url, separated by ", " (as in
      "a.jpg 600w, b.jpg 2x, c.jpg"), parse to a width image, a density image and a url-only image,
      each keeping its trimmed descriptor as raw text. */
  lemma {:induction false} SrcsetWidthDensityUrl(a: string, n: nat, b: string, d: string, c: string)
    requires a != "" && NoSpace(a) && ',' !in a
    requires b != "" && NoSpace(b) && ',' !in b
    requires c != "" && NoSpace(c) && ',' !in c
    requires NoSpace(d) && ',' !in d
    ensures var x := a + " " + Decimal(n) + "w";
            var y := b + " " + d + "x";
            ParseSrcset(Join([x, " " + y, " " + c], ',')) == [
              PodcastImage(x, WidthImage(a, Some(n))),
              PodcastImage(y, DensityImage(b, ParseFloat(d))),
              PodcastImage(c, UrlImage(c))]
  {
    var x := a + " " + Decimal(n) + "w";
    var y := b + " " + d + "x";
    assert x[0] == a[0] && x[|x| - 1] == 'w';
    assert y[0] == b[0] && y[|y| - 1] == 'x';
    assert ',' !in x by {
      assert forall i :: 0 <= i < |Decimal(n)| ==> IsDigit(Decimal(n)[i]);
    }
    assert ',' !in y;
    SrcsetOfThree(x, y, c);
    assert " " != "" && AllSpace(" ") by {
      assert IsSpace(" "[0]);
    }
    WidthDescriptor(a, " ", n);
    DensityDescriptor(b, " ", d);
    DescriptorOneToken(c);
  }

  /** `podcastImages.fn`: the images of the node's `srcset`; throws when the node has none. */
  function ImagesFn(n: XmlNode): (r: Result<seq<PodcastImage>, Thrown>)
    ensures r.Success? <==> "srcset" in n.attributes
    ensures r.Success? ==> r.value == ParseSrcset(n.attributes["srcset"])
  {
    match KnownAttribute(n, "srcset")
    case Success(srcset) => Success(ParseSrcset(srcset))
    case Failure(e) => Failure(e)
  }

  /** The descriptor as a whole: transform, then the support check (a node was found), then `fn`. */
  function UseImages(child: Option<Shape>): Option<Result<seq<PodcastImage>, Thrown>> {
    match ImagesTransform(child)
    case None => None
    case Some(n) => Some(ImagesFn(n))
  }

  /** `fn` never throws on what the transform hands it: the tag yields the images of the first node with a
      non-empty `srcset`, and nothing when no node has one. */
  lemma {:induction false} ImagesNeverThrow(child: Option<Shape>)
    ensures UseImages(child).Some? <==> exists i :: 0 <= i < |EnsureArray(child)| && HasSrcset(EnsureArray(child)[i])
    ensures UseImages(child).Some? ==>
      exists i :: 0 <= i < |EnsureArray(child)| && HasSrcset(EnsureArray(child)[i])
        && UseImages(child) == Some(Success(ParseSrcset(EnsureArray(child)[i].attributes["srcset"])))
        && forall j :: 0 <= j < i ==> !HasSrcset(EnsureArray(child)[j])
  {
    var r := ImagesTransform(child);
    if r.Some? {
      var i :| 0 <= i < |EnsureArray(child)| && EnsureArray(child)[i] == r.value
               && HasSrcset(r.value)
               && forall j :: 0 <= j < i ==> !HasSrcset(EnsureArray(child)[j]);
      assert UseImages(child) == Some(ImagesFn(r.value));
    }
  }

  /** `addSubTag("liveItem", podcastImages)`: inside a live item the descriptor reads the `<podcast:images>`
      children and, when one has a `srcset`, contributes the `podcastImages` field and nothing else. */
  function ImagesForLiveItem(): (d: SubTag<LiveItemItem, LiveItemPatch>)
    ensures d.tag == ImagesTag
    ensures forall child, item :: d.run(child, item).Some? <==> ImagesTransform(child).Some?
    ensures forall child, item :: d.run(child, item).Some? ==>
      d.run(child, item) == Some(EmptyLiveItemPatch.(podcastImages :=
        Some(ParseSrcset(ImagesTransform(child).value.attributes["srcset"]))))
  {
    SubTag(ImagesTag, (child: Option<Shape>, item: LiveItemItem) =>
      match ImagesTransform(child)
      case None => None
      case Some(n) => Some(EmptyLiveItemPatch.(podcastImages := Some(ParseSrcset(n.attributes["srcset"])))))
  }
}
