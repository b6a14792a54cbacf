/**
 * The transform returned by the plugin (lib/lfm/index.js, lines 120-154):
 * every paragraph of the tree has its children rewritten in place, a link
 * after a text ending in '@' becoming a user mention and a `bilibili:` image
 * becoming an embedded video.
 */
module Rewrite {
  import opened Wrappers
  import opened Patterns
  import opened Classify
  import opened Mdast

  /** Whether the mention rule fires for `child` with `prev` the sibling before it (None at index 0). */
  predicate MentionApplies(prev: Option<Node>, child: Node) {
    child.Link? && prev.Some? && prev.value.Text? && EndsWithAt(prev.value.value) &&
    MentionUid(child.url).Some?
  }

  /** Whether the video rule fires for `child`. */
  predicate VideoApplies(child: Node) {
    child.Image? && StartsWith(child.url, VideoScheme)
  }

  /**
   * What the loop body does to one child, given the sibling before it. The
   * rewrite never turns a node into a text node nor a text node into anything
   * else, and keeps the size of the node.
   */
  function RewriteChild(prev: Option<Node>, child: Node): (r: Node)
    ensures r.Text? <==> child.Text?
    ensures r.Text? ==> r == child
    ensures r == child || (r.UserMention? && child.Link? && r.children == child.children) || (r.BilibiliVideo? && child.Image?)
    ensures Size(r) == Size(child)
  {
    if MentionApplies(prev, child) then UserMention(MentionUid(child.url).value, child.children)
    else if VideoApplies(child) then BilibiliVideo(VideoId(child.url))
    else child
  }

  /** The child at `index` after the rewrite, looking back at the ORIGINAL previous sibling. */
  function RewriteAt(cs: seq<Node>, index: nat): Node
    requires index < |cs|
  {
    RewriteChild(if index == 0 then None else Some(cs[index - 1]), cs[index])
  }

  /** The children of a paragraph after the rewrite: a map with look-back over the original sequence. */
  function RewriteChildren(cs: seq<Node>): (r: seq<Node>)
    ensures |r| == |cs|
  {
    seq(|cs|, i requires 0 <= i < |cs| => RewriteAt(cs, i))
  }

  /**
   * Reading the previous sibling after it was rewritten gives the same
   * decision as reading the original, because the rule only looks at a
   * previous text node, and text nodes are never rewritten.
   */
  lemma LookBackAgrees(prevPrev: Option<Node>, prev: Node, child: Node)
    ensures RewriteChild(Some(RewriteChild(prevPrev, prev)), child) == RewriteChild(Some(prev), child)
  {
  }

  /**
   * `childNode.forEach((child, index) => ...)` over a paragraph's children,
   * overwriting `childNode[index]` and reading the possibly already rewritten
   * `childNode[index - 1]`, as the source does.
   */
  method RewriteParagraph(childNode: array<Node>)
    modifies childNode
    ensures childNode[..] == RewriteChildren(old(childNode[..]))
  {
    ghost var original := childNode[..];
    var index := 0;
    while index < childNode.Length
      invariant 0 <= index <= childNode.Length
      invariant forall k :: 0 <= k < index ==> childNode[k] == RewriteAt(original, k)
      invariant forall k :: index <= k < childNode.Length ==> childNode[k] == original[k]
    {
      var child := childNode[index];
      var lastNode := if index >= 1 then Some(childNode[index - 1]) else None;
      if child.Link? && index >= 1 && lastNode.value.Text? && EndsWithAt(lastNode.value.value) {
        var match_ := MentionUid(child.url);
        if match_.Some? {
          childNode[index] := UserMention(match_.value, child.children);
        }
      }
      if child.Image? && StartsWith(child.url, VideoScheme) {
        var videoId := VideoId(child.url);
        childNode[index] := BilibiliVideo(videoId);
      }
      index := index + 1;
    }
  }

  lemma {:induction false} RewriteChildrenSize(cs: seq<Node>)
    ensures SizeAll(RewriteChildren(cs)) == SizeAll(cs)
  {
    SizeAllPointwise(RewriteChildren(cs), cs);
  }

  /**
   * The tree after the transform: a pre-order visit that rewrites the children
   * of every paragraph and then descends into the (rewritten) children of every
   * node, so nested paragraphs are reached too.
   */
  function Visit(n: Node): (r: Node)
    ensures Size(r) == Size(n)
    decreases Size(n), 0
  {
    match n
    case Paragraph(cs) =>
      RewriteChildrenSize(cs);
      Paragraph(VisitAll(RewriteChildren(cs)))
    case Root(cs) => Root(VisitAll(cs))
    case Link(url, cs) => Link(url, VisitAll(cs))
    case UserMention(uid, cs) => UserMention(uid, VisitAll(cs))
    case Other(cs) => Other(VisitAll(cs))
    case Text(_) => n
    case Image(_) => n
    case BilibiliVideo(_) => n
  }

  function VisitAll(cs: seq<Node>): (r: seq<Node>)
    ensures |r| == |cs|
    ensures SizeAll(r) == SizeAll(cs)
    decreases SizeAll(cs), 1
  {
    if cs == [] then []
    else
      var r := [Visit(cs[0])] + VisitAll(cs[1..]);
      assert r[1..] == VisitAll(cs[1..]);
      r
  }

  lemma {:induction false} VisitAllAt(cs: seq<Node>, k: nat)
    requires k < |cs|
    ensures VisitAll(cs)[k] == Visit(cs[k])
  {
    if k > 0 {
      VisitAllAt(cs[1..], k - 1);
    }
  }

  /**
   * The transform on a tree: returns the tree with every paragraph rewritten.
   * The children of a paragraph are copied into an array and rewritten in
   * place by `RewriteParagraph`.
   */
  method TransformTree(tree: Node) returns (r: Node)
    ensures r == Visit(tree)
    decreases Size(tree), 0
  {
    match tree
    case Paragraph(cs) =>
      var childNode := new Node[|cs|](i requires 0 <= i < |cs| => cs[i]);
      assert childNode[..] == cs;
      RewriteParagraph(childNode);
      RewriteChildrenSize(cs);
      var children := TransformChildren(childNode[..]);
      r := Paragraph(children);
    case Root(cs) =>
      var children := TransformChildren(cs);
      r := Root(children);
    case Link(url, cs) =>
      var children := TransformChildren(cs);
      r := Link(url, children);
    case UserMention(uid, cs) =>
      var children := TransformChildren(cs);
      r := UserMention(uid, children);
    case Other(cs) =>
      var children := TransformChildren(cs);
      r := Other(children);
    case Text(_) => r := tree;
    case Image(_) => r := tree;
    case BilibiliVideo(_) => r := tree;
  }

  /** Visits the children of one node, in order. */
  method TransformChildren(cs: seq<Node>) returns (rs: seq<Node>)
    ensures rs == VisitAll(cs)
    decreases SizeAll(cs), 1
  {
    rs := [];
    var j := 0;
    while j < |cs|
      invariant 0 <= j <= |cs|
      invariant |rs| == j
      invariant forall k :: 0 <= k < j ==> rs[k] == Visit(cs[k])
    {
      ChildSize(cs, j);
      var child := TransformTree(cs[j]);
      rs := rs + [child];
      j := j + 1;
    }
    forall k | 0 <= k < |cs| ensures rs[k] == VisitAll(cs)[k] {
      VisitAllAt(cs, k);
    }
  }

  /**
   * The effect of the rewrite at one index of a paragraph: a link after a text
   * ending in '@' whose URL matches the primary pattern, or failing that the
   * legacy one, becomes a mention of the captured user id with the link's
   * children; a `bilibili:` image becomes a video; everything else, and in
   * particular every text node, is kept.
   */
  lemma RewriteChildrenAt(cs: seq<Node>, i: nat)
    requires i < |cs|
    ensures cs[i].Link? && i >= 1 && cs[i - 1].Text? && EndsWithAt(cs[i - 1].value) &&
            Matches(MentionRegex, cs[i].url) ==>
              |cs[i].url| > |MentionPrefix| && AllDigits(cs[i].url[|MentionPrefix|..]) &&
              RewriteChildren(cs)[i] == UserMention(DecimalValue(cs[i].url[|MentionPrefix|..]), cs[i].children)
    ensures cs[i].Link? && i >= 1 && cs[i - 1].Text? && EndsWithAt(cs[i - 1].value) &&
            !Matches(MentionRegex, cs[i].url) && Matches(LegacyMentionRegex, cs[i].url) ==>
              |cs[i].url| > |LegacyMentionPrefix| && AllDigits(cs[i].url[|LegacyMentionPrefix|..]) &&
              RewriteChildren(cs)[i] == UserMention(DecimalValue(cs[i].url[|LegacyMentionPrefix|..]), cs[i].children)
    ensures cs[i].Link? && (i == 0 || !cs[i - 1].Text? || !EndsWithAt(cs[i - 1].value) ||
            (!Matches(MentionRegex, cs[i].url) && !Matches(LegacyMentionRegex, cs[i].url))) ==>
              RewriteChildren(cs)[i] == cs[i]
    ensures cs[i].Image? && StartsWith(cs[i].url, VideoScheme) ==>
              RewriteChildren(cs)[i] == BilibiliVideo(VideoId(cs[i].url))
    ensures cs[i].Image? && !StartsWith(cs[i].url, VideoScheme) ==> RewriteChildren(cs)[i] == cs[i]
    ensures !cs[i].Link? && !cs[i].Image? ==> RewriteChildren(cs)[i] == cs[i]
  {
    if cs[i].Link? {
      var uid := MentionUid(cs[i].url);
    }
  }

  /** A paragraph's children after the rewrite differ from the original only where a rule fired. */
  lemma RewriteChangesOnlyMatches(cs: seq<Node>)
    ensures |RewriteChildren(cs)| == |cs|
    ensures forall i :: 0 <= i < |cs| && RewriteChildren(cs)[i] != cs[i] ==>
              MentionApplies(if i == 0 then None else Some(cs[i - 1]), cs[i]) || VideoApplies(cs[i])
  {
  }

  /** The visit keeps the kind of every node, the URL of links and images, and text and images unchanged. */
  lemma VisitKeepsKind(n: Node)
    ensures Visit(n).Text? <==> n.Text?
    ensures Visit(n).Link? <==> n.Link?
    ensures Visit(n).Image? <==> n.Image?
    ensures Visit(n).Paragraph? <==> n.Paragraph?
    ensures Visit(n).Root? <==> n.Root?
    ensures Visit(n).UserMention? <==> n.UserMention?
    ensures Visit(n).BilibiliVideo? <==> n.BilibiliVideo?
    ensures Visit(n).Other? <==> n.Other?
    ensures n.Link? ==> Visit(n).url == n.url
    ensures n.Text? || n.Image? ==> Visit(n) == n
  {
  }

  /** Outside paragraphs the visit only descends: the children themselves are not rewritten. */
  lemma OnlyParagraphsRewritten(n: Node, i: nat)
    requires (n.Root? || n.Link? || n.UserMention? || n.Other?)
    requires i < |n.children|
    ensures Visit(n).children[i] == Visit(n.children[i])
  {
    VisitAllAt(n.children, i);
  }

  /** No rule fires anywhere in the tree any more: no paragraph holds a link or image that the rewrite would replace. */
  predicate Settled(n: Node)
    decreases n
  {
    match n
    case Paragraph(cs) => RewriteChildren(cs) == cs && forall i :: 0 <= i < |cs| ==> Settled(cs[i])
    case Root(cs) => forall i :: 0 <= i < |cs| ==> Settled(cs[i])
    case Link(_, cs) => forall i :: 0 <= i < |cs| ==> Settled(cs[i])
    case UserMention(_, cs) => forall i :: 0 <= i < |cs| ==> Settled(cs[i])
    case Other(cs) => forall i :: 0 <= i < |cs| ==> Settled(cs[i])
    case Text(_) => true
    case Image(_) => true
    case BilibiliVideo(_) => true
  }

  /** After the rewrite and the visit, no rule fires on the children of a paragraph. */
  lemma RewrittenChildrenStable(cs: seq<Node>)
    ensures RewriteChildren(VisitAll(RewriteChildren(cs))) == VisitAll(RewriteChildren(cs))
  {
    var rs := RewriteChildren(cs);
    var vs := VisitAll(rs);
    forall i | 0 <= i < |vs| ensures RewriteAt(vs, i) == vs[i] {
      VisitAllAt(rs, i);
      VisitKeepsKind(rs[i]);
      if i > 0 {
        VisitAllAt(rs, i - 1);
        VisitKeepsKind(rs[i - 1]);
      }
    }
  }

  lemma {:induction false} VisitSettles(n: Node)
    ensures Settled(Visit(n))
    decreases Size(n), 0
  {
    match n
    case Paragraph(cs) =>
      RewriteChildrenSize(cs);
      RewrittenChildrenStable(cs);
      VisitAllSettles(RewriteChildren(cs));
    case Root(cs) => VisitAllSettles(cs);
    case Link(_, cs) => VisitAllSettles(cs);
    case UserMention(_, cs) => VisitAllSettles(cs);
    case Other(cs) => VisitAllSettles(cs);
    case Text(_) =>
    case Image(_) =>
    case BilibiliVideo(_) =>
  }

  lemma {:induction false} VisitAllSettles(cs: seq<Node>)
    ensures forall i :: 0 <= i < |VisitAll(cs)| ==> Settled(VisitAll(cs)[i])
    decreases SizeAll(cs), 1
  {
    forall i | 0 <= i < |cs| ensures Settled(VisitAll(cs)[i]) {
      ChildSize(cs, i);
      VisitAllAt(cs, i);
      VisitSettles(cs[i]);
    }
  }

  /** The visit leaves a settled tree as it is. */
  lemma {:induction false} SettledFixed(n: Node)
    requires Settled(n)
    ensures Visit(n) == n
    decreases Size(n), 0
  {
    match n
    case Paragraph(cs) => VisitAllFixed(cs);
    case Root(cs) => VisitAllFixed(cs);
    case Link(_, cs) => VisitAllFixed(cs);
    case UserMention(_, cs) => VisitAllFixed(cs);
    case Other(cs) => VisitAllFixed(cs);
    case Text(_) =>
    case Image(_) =>
    case BilibiliVideo(_) =>
  }

  lemma {:induction false} VisitAllFixed(cs: seq<Node>)
    requires forall i :: 0 <= i < |cs| ==> Settled(cs[i])
    ensures VisitAll(cs) == cs
    decreases SizeAll(cs), 1
  {
    forall i | 0 <= i < |cs| ensures VisitAll(cs)[i] == cs[i] {
      ChildSize(cs, i);
      VisitAllAt(cs, i);
      SettledFixed(cs[i]);
    }
  }

  /** Running the transform twice has the same effect as running it once. */
  lemma VisitIdempotent(n: Node)
    ensures Visit(Visit(n)) == Visit(n)
  {
    VisitSettles(n);
    SettledFixed(Visit(n));
  }

  /** A mention by user path, in a paragraph under the root. */
  lemma UserMentionScenario()
    ensures Visit(Root([Paragraph([Text("Hi @"), Link("/user/42", [Text("bob")])])])) ==
            Root([Paragraph([Text("Hi @"), UserMention(42, [Text("bob")])])])
  {
    var p := Paragraph([Text("Hi @"), Link("/user/42", [Text("bob")])]);
    UserMentionParagraph();
    assert [p][1..] == [] && VisitAll([p]) == [Visit(p)] + VisitAll([]);
  }

  lemma UserMentionParagraph()
    ensures Visit(Paragraph([Text("Hi @"), Link("/user/42", [Text("bob")])])) ==
            Paragraph([Text("Hi @"), UserMention(42, [Text("bob")])])
  {
    MentionUidOfUserPath(42);
    assert MentionPrefix + DecimalString(42) == "/user/42";
    var bob := [Text("bob")];
    assert VisitAll(bob) == bob;
    var cs := [Text("Hi @"), Link("/user/42", bob)];
    var rs := [Text("Hi @"), UserMention(42, bob)];
    assert EndsWithAt(cs[0].value);
    assert RewriteAt(cs, 0) == rs[0];
    assert RewriteAt(cs, 1) == rs[1];
    assert RewriteChildren(cs) == rs;
    assert Visit(rs[1]) == UserMention(42, VisitAll(bob));
    assert rs[1..] == [rs[1]] && VisitAll([rs[1]]) == [Visit(rs[1])] + VisitAll([]);
    assert VisitAll(rs) == [Visit(rs[0])] + VisitAll(rs[1..]);
    assert VisitAll(rs) == rs;
  }

  /** A mention by legacy path. */
  lemma LegacyMentionScenario()
    ensures Visit(Paragraph([Text("cc@"), Link("/space/show?uid=7", [Text("7")])])) ==
            Paragraph([Text("cc@"), UserMention(7, [Text("7")])])
  {
    MentionUidOfLegacyPath(7);
    assert LegacyMentionPrefix + DecimalString(7) == "/space/show?uid=7";
    var seven := [Text("7")];
    assert VisitAll(seven) == seven;
    var ds := [Text("cc@"), Link("/space/show?uid=7", seven)];
    var es := [Text("cc@"), UserMention(7, seven)];
    assert EndsWithAt(ds[0].value);
    assert RewriteAt(ds, 0) == es[0];
    assert RewriteAt(ds, 1) == es[1];
    assert RewriteChildren(ds) == es;
    assert Visit(es[1]) == UserMention(7, VisitAll(seven));
    assert es[1..] == [es[1]] && VisitAll([es[1]]) == [Visit(es[1])] + VisitAll([]);
    assert VisitAll(es) == [Visit(es[0])] + VisitAll(es[1..]);
    assert VisitAll(es) == es;
  }

  /** Numeric and `BV` video ids, and an ordinary image that is kept. */
  lemma VideoScenario()
    ensures Visit(Paragraph([Image("bilibili:123456"), Image("bilibili:BV1cf4y1W771"), Image("a.png")])) ==
            Paragraph([BilibiliVideo("av123456"), BilibiliVideo("BV1cf4y1W771"), Image("a.png")])
  {
    VideoIdExamples();
    var cs := [Image("bilibili:123456"), Image("bilibili:BV1cf4y1W771"), Image("a.png")];
    var rs := [BilibiliVideo("av123456"), BilibiliVideo("BV1cf4y1W771"), Image("a.png")];
    assert StartsWith(cs[0].url, VideoScheme) && StartsWith(cs[1].url, VideoScheme);
    assert !StartsWith(cs[2].url, VideoScheme);
    assert RewriteAt(cs, 0) == rs[0];
    assert RewriteAt(cs, 1) == rs[1];
    assert RewriteAt(cs, 2) == rs[2];
    assert RewriteChildren(cs) == rs;
    assert VisitAll(rs[2..]) == [rs[2]];
    assert VisitAll(rs[1..]) == [rs[1]] + VisitAll(rs[2..]);
    assert VisitAll(rs) == rs;
  }
}
