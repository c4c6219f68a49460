/**
 * The sub-tag registry as the phase-4 parsers use it: `getSubTags(parent)` is a given ordered
 * sequence of descriptors, `useParser` runs one of them on a node and merges what it returns into
 * the record being built, and the `forEach` over the sequence applies them in registration order.
 */
module SubTags {
  import opened Wrappers
  import opened Xml

  /** A descriptor registered with `addSubTag(parent, descriptor)`: the child tag it reads, and what its
      nodeTransform, supportCheck and fn do together: `run(node[tag], item)` is `None` when the transform
      leaves nothing or the support check fails, and otherwise the fields `fn` returns. */
  datatype SubTag<!S, P> = SubTag(tag: string, run: (Option<Shape>, S) -> Option<P>)

  /** `useParser(descriptor, node, item)`: merges the descriptor's fields into `item` when it applies. */
  function Use<S, P>(d: SubTag<S, P>, merge: (S, P) -> S, n: XmlNode, item: S): S {
    match d.run(Child(n, d.tag), item)
    case None => item
    case Some(p) => merge(item, p)
  }

  /** The record after the first `|subs|` descriptors have run, in registration order, starting from `init`. */
  function OverlayAll<S, P>(subs: seq<SubTag<S, P>>, merge: (S, P) -> S, n: XmlNode, init: S): S
    decreases |subs|
  {
    if subs == [] then init
    else Use(subs[|subs| - 1], merge, n, OverlayAll(subs[..|subs| - 1], merge, n, init))
  }

  /** What the `k`-th descriptor returns, given the record the earlier ones produced. */
  function Contribution<S, P>(subs: seq<SubTag<S, P>>, merge: (S, P) -> S, n: XmlNode, init: S, k: nat): Option<P>
    requires k < |subs|
  {
    subs[k].run(Child(n, subs[k].tag), OverlayAll(subs[..k], merge, n, init))
  }

  /** `getS` reads an optional field of the record and `getP` the same field of a descriptor's output,
      and merging behaves like a spread: a field the output sets replaces the record's, any other is kept. */
  ghost predicate IsField<S(!new), P(!new), T>(merge: (S, P) -> S, getS: S -> Option<T>, getP: P -> Option<T>) {
    forall s, p :: getS(merge(s, p)) == (if getP(p).Some? then getP(p) else getS(s))
  }

  /** The `forEach` over the registered descriptors, each one merging into the same record. */
  method ApplySubTags<S, P>(subs: seq<SubTag<S, P>>, merge: (S, P) -> S, n: XmlNode, init: S) returns (item: S)
    ensures item == OverlayAll(subs, merge, n, init)
  {
    item := init;
    for i := 0 to |subs|
      invariant item == OverlayAll(subs[..i], merge, n, init)
    {
      assert subs[..i + 1][..i] == subs[..i];
      item := Use(subs[i], merge, n, item);
    }
    assert subs[..|subs|] == subs;
  }

  /** Registering more descriptors after `a` runs them after `a`'s, on the record `a` produced. */
  lemma {:induction false} OverlayAllAppend<S, P>(a: seq<SubTag<S, P>>, b: seq<SubTag<S, P>>, merge: (S, P) -> S, n: XmlNode, init: S)
    ensures OverlayAll(a + b, merge, n, init) == OverlayAll(b, merge, n, OverlayAll(a, merge, n, init))
    decreases |b|
  {
    if b == [] {
      assert a + b == a;
    } else {
      assert (a + b)[..|a + b| - 1] == a + b[..|b| - 1];
      OverlayAllAppend(a, b[..|b| - 1], merge, n, init);
    }
  }

  lemma {:induction false} ContributionOfPrefix<S, P>(subs: seq<SubTag<S, P>>, m: nat, merge: (S, P) -> S, n: XmlNode, init: S, k: nat)
    requires k < m <= |subs|
    ensures Contribution(subs[..m], merge, n, init, k) == Contribution(subs, merge, n, init, k)
  {
    assert subs[..m][..k] == subs[..k];
  }

  /** A field no descriptor sets keeps its initial value. */
  lemma {:induction false} UntouchedFieldKept<S(!new), P(!new), T>(subs: seq<SubTag<S, P>>, merge: (S, P) -> S, n: XmlNode, init: S,
                                                       getS: S -> Option<T>, getP: P -> Option<T>)
    requires IsField(merge, getS, getP)
    requires forall k :: 0 <= k < |subs| ==>
      Contribution(subs, merge, n, init, k).None? || getP(Contribution(subs, merge, n, init, k).value).None?
    ensures getS(OverlayAll(subs, merge, n, init)) == getS(init)
    decreases |subs|
  {
    if subs != [] {
      var m := |subs| - 1;
      forall k | 0 <= k < m
        ensures Contribution(subs[..m], merge, n, init, k).None?
                || getP(Contribution(subs[..m], merge, n, init, k).value).None?
      {
        ContributionOfPrefix(subs, m, merge, n, init, k);
      }
      UntouchedFieldKept(subs[..m], merge, n, init, getS, getP);
      assert Contribution(subs, merge, n, init, m) == subs[m].run(Child(n, subs[m].tag), OverlayAll(subs[..m], merge, n, init));
    }
  }

  /** Later registration wins: the field holds what the last descriptor that set it returned. */
  lemma {:induction false} LastWriterWins<S(!new), P(!new), T>(subs: seq<SubTag<S, P>>, merge: (S, P) -> S, n: XmlNode, init: S,
                                                   getS: S -> Option<T>, getP: P -> Option<T>, k: nat)
    requires IsField(merge, getS, getP)
    requires k < |subs|
    requires Contribution(subs, merge, n, init, k).Some?
    requires getP(Contribution(subs, merge, n, init, k).value).Some?
    requires forall j :: k < j < |subs| ==>
      Contribution(subs, merge, n, init, j).None? || getP(Contribution(subs, merge, n, init, j).value).None?
    ensures getS(OverlayAll(subs, merge, n, init)) == getP(Contribution(subs, merge, n, init, k).value)
    decreases |subs|
  {
    var m := |subs| - 1;
    if k < m {
      forall j | k <= j < m
        ensures Contribution(subs[..m], merge, n, init, j) == Contribution(subs, merge, n, init, j)
      {
        ContributionOfPrefix(subs, m, merge, n, init, j);
      }
      LastWriterWins(subs[..m], merge, n, init, getS, getP, k);
      assert Contribution(subs, merge, n, init, m) == subs[m].run(Child(n, subs[m].tag), OverlayAll(subs[..m], merge, n, init));
    }
  }
}
