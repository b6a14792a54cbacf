/**
 * The markdown syntax tree (mdast) as the rewriter sees it: a closed union of
 * the node kinds it distinguishes, including the two kinds this plugin adds
 * to the tree (`userMention` and `bilibiliVideo`).
 */
module Mdast {

  datatype Node =
    | Root(children: seq<Node>)
    | Paragraph(children: seq<Node>)
    | Text(value: string)
    | Link(url: string, children: seq<Node>)
    | Image(url: string)
      /** Derived from a link: the user id and the link's own display content. */
    | UserMention(uid: nat, children: seq<Node>)
      /** Derived from an image: the normalised video id. */
    | BilibiliVideo(videoId: string)
      /** Any other kind (heading, emphasis, list, code, ...); a leaf has no children. */
    | Other(children: seq<Node>)

  /** The number of nodes in a tree; a measure for the traversal. */
  function Size(n: Node): (k: nat)
    ensures k >= 1
    decreases n
  {
    match n
    case Text(_) => 1
    case Image(_) => 1
    case BilibiliVideo(_) => 1
    case Root(cs) => 1 + SizeAll(cs)
    case Paragraph(cs) => 1 + SizeAll(cs)
    case Link(_, cs) => 1 + SizeAll(cs)
    case UserMention(_, cs) => 1 + SizeAll(cs)
    case Other(cs) => 1 + SizeAll(cs)
  }

  function SizeAll(cs: seq<Node>): nat
    decreases cs
  {
    if cs == [] then 0 else Size(cs[0]) + SizeAll(cs[1..])
  }

  /** Each child is no larger than all the children together. */
  lemma {:induction false} ChildSize(cs: seq<Node>, i: nat)
    requires i < |cs|
    ensures Size(cs[i]) <= SizeAll(cs)
  {
    if i > 0 {
      ChildSize(cs[1..], i - 1);
    }
  }

  /** Two sequences whose elements have pairwise equal sizes have equal total size. */
  lemma {:induction false} SizeAllPointwise(xs: seq<Node>, ys: seq<Node>)
    requires |xs| == |ys|
    requires forall i :: 0 <= i < |xs| ==> Size(xs[i]) == Size(ys[i])
    ensures SizeAll(xs) == SizeAll(ys)
  {
    if xs != [] {
      assert Size(xs[0]) == Size(ys[0]);
      SizeAllPointwise(xs[1..], ys[1..]);
    }
  }
}
