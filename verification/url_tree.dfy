/** The data side of the website-structure view `src/components/HTMLThree.tsx`:
    the category lookup for a link, the show-only-selected filter, the
    path trie built from the links, the expanded-node toggle and the
    "visible of total" count. Rendering, icons, colours and the
    `localeCompare` sort of children are not modelled. */
module UrlTree {
  import opened Wrappers
  import opened Seqs
  import opened Text
  import opened Records
  import opened Platform
  import UrlPatternMatcher

  type UrlCategory = UrlPatternMatcher.UrlCategory

  // ---------------------------------------------------------------------------
  // Category lookup and link selection

  /** `getCategoryForUrl`: the first category, in entry order, whose examples
      include the URL. */
  function CategoryForUrl(cats: seq<(string, UrlCategory)>, url: string): (r: Option<string>)
    ensures r.None? <==> forall i :: 0 <= i < |cats| ==> url !in cats[i].1.examples
    ensures r.Some? ==> exists i :: 0 <= i < |cats| && cats[i].0 == r.value && url in cats[i].1.examples
                                    && forall j :: 0 <= j < i ==> url !in cats[j].1.examples
  {
    if |cats| == 0 then None
    else if url in cats[0].1.examples then Some(cats[0].0)
    else
      var r := CategoryForUrl(cats[1..], url);
      assert forall i :: 1 <= i < |cats| ==> cats[i] == cats[1..][i - 1];
      if r.Some? then
        var i' :| 0 <= i' < |cats[1..]| && cats[1..][i'].0 == r.value && url in cats[1..][i'].1.examples
                  && forall j :: 0 <= j < i' ==> url !in cats[1..][j].1.examples;
        assert cats[i' + 1].0 == r.value && url in cats[i' + 1].1.examples;
        r
      else r
  }

  /** The `filteredLinks` test: the link's first-found category is truthy
      (so a category named "" never passes) and selected. */
  predicate KeptInTree(cats: seq<(string, UrlCategory)>, selected: seq<string>, link: string) {
    match CategoryForUrl(cats, link)
    case None => false
    case Some(c) => c != "" && c in selected
  }

  /** The links the tree is built from. */
  function TreeLinks(links: seq<string>, cats: seq<(string, UrlCategory)>, selected: seq<string>,
                     showOnlySelected: bool): (r: seq<string>)
    ensures !(showOnlySelected && |selected| > 0) ==> r == links
    ensures showOnlySelected && |selected| > 0 ==>
              IsSubsequence(r, links)
              && forall l :: l in r <==> l in links && KeptInTree(cats, selected, l)
  {
    if showOnlySelected && |selected| > 0 then Filter(links, l => KeptInTree(cats, selected, l))
    else links
  }

  /** The `visibleUrls` test: some selected category's examples include the link. */
  predicate InSelectedCategory(cats: seq<(string, UrlCategory)>, selected: seq<string>, link: string) {
    exists i :: 0 <= i < |cats| && link in cats[i].1.examples && cats[i].0 in selected
  }

  /** `visibleUrls`: the number shown as "N of total URLs". */
  function VisibleUrls(links: seq<string>, cats: seq<(string, UrlCategory)>, selected: seq<string>,
                       showOnlySelected: bool): (n: nat)
    ensures n <= |links|
    ensures !(showOnlySelected && |selected| > 0) ==> n == |links|
  {
    if showOnlySelected && |selected| > 0 then |Filter(links, l => InSelectedCategory(cats, selected, l))|
    else |links|
  }

  /** With the filter on, no links count zero. */
  lemma {:induction false} VisibleUrlsEmpty(cats: seq<(string, UrlCategory)>, selected: seq<string>)
    requires |selected| > 0
    ensures VisibleUrls([], cats, selected, true) == 0
  {
    assert Filter([], l => InSelectedCategory(cats, selected, l)) == [];
  }

  /** With the filter on, one more link adds one to the count exactly when
      some selected category's examples include it. */
  lemma {:induction false} VisibleUrlsSnoc(links: seq<string>, cats: seq<(string, UrlCategory)>, selected: seq<string>,
                                           l: string)
    requires |selected| > 0
    ensures VisibleUrls(links + [l], cats, selected, true)
         == VisibleUrls(links, cats, selected, true) + (if InSelectedCategory(cats, selected, l) then 1 else 0)
  {
    FilterSnoc(links, l, l => InSelectedCategory(cats, selected, l));
  }

  /** A link the tree keeps is one the count counts, so the tree never has more
      links than the count says. */
  lemma {:induction false} TreeLinksAreCounted(links: seq<string>, cats: seq<(string, UrlCategory)>, selected: seq<string>,
                            showOnlySelected: bool)
    ensures forall l :: KeptInTree(cats, selected, l) ==> InSelectedCategory(cats, selected, l)
    ensures |TreeLinks(links, cats, selected, showOnlySelected)| <= VisibleUrls(links, cats, selected, showOnlySelected)
  {
    forall l | KeptInTree(cats, selected, l)
      ensures InSelectedCategory(cats, selected, l)
    {
      var c := CategoryForUrl(cats, l).value;
      var i :| 0 <= i < |cats| && cats[i].0 == c && l in cats[i].1.examples
               && forall j :: 0 <= j < i ==> l !in cats[j].1.examples;
    }
    if showOnlySelected && |selected| > 0 {
      FilterLengthMonotone(links, l => KeptInTree(cats, selected, l), l => InSelectedCategory(cats, selected, l));
    }
  }

  /** The count and the tree disagree when a link's first category is not
      selected but a later one is. */
  lemma {:induction false} CountAndTreeCanDiffer()
    ensures var cats := [("A", UrlPatternMatcher.UrlCategory("a", ["u"])),
                         ("B", UrlPatternMatcher.UrlCategory("b", ["u"]))];
            TreeLinks(["u"], cats, ["B"], true) == [] && VisibleUrls(["u"], cats, ["B"], true) == 1
  {
    var cats := [("A", UrlPatternMatcher.UrlCategory("a", ["u"])),
                 ("B", UrlPatternMatcher.UrlCategory("b", ["u"]))];
    assert CategoryForUrl(cats, "u") == Some("A");
    assert !KeptInTree(cats, ["B"], "u");
    assert InSelectedCategory(cats, ["B"], "u") by {
      assert "u" in cats[1].1.examples && cats[1].0 in ["B"];
    }
    assert Filter(["u"], l => InSelectedCategory(cats, ["B"], l)) == ["u"];
  }

  // ---------------------------------------------------------------------------
  // Path segments

  /** A piece of a split that `filter(segment => segment.length > 0)` keeps. */
  predicate NonEmpty(piece: string) {
    |piece| > 0
  }

  /** The non-empty pieces of a pathname split on `/`: every non-empty piece,
      as often as it occurs and in the order of the pathname, and nothing else. */
  function Segments(pathname: string): (segs: seq<string>)
    ensures forall i :: 0 <= i < |segs| ==> |segs[i]| > 0 && '/' !in segs[i]
    ensures IsSubsequence(segs, SplitOn(pathname, "/"))
    ensures forall s :: multiset(segs)[s] == if s == "" then 0 else multiset(SplitOn(pathname, "/"))[s]
  {
    var pieces := SplitOn(pathname, "/");
    forall i | 0 <= i < |pieces|
      ensures '/' !in pieces[i]
    {
      ContainsChar(pieces[i], '/');
    }
    var segs := Filter(pieces, NonEmpty);
    assert forall s :: multiset(segs)[s] == if s == "" then 0 else multiset(pieces)[s] by {
      forall s ensures multiset(segs)[s] == if s == "" then 0 else multiset(pieces)[s] {
        FilterMultiset(pieces, NonEmpty, s);
      }
    }
    segs
  }

  /** A pathname built as `/` followed by the `/`-join of proper segments
      splits back into exactly those segments. */
  lemma {:induction false} SegmentsOfJoin(segs: seq<string>)
    requires ProperSegments(segs)
    ensures Segments("/" + Join("/", segs)) == segs
  {
    var joined := Join("/", segs);
    var pathname := "/" + joined;
    assert pathname == "" + "/" + joined;
    SplitOnLeadingPiece("", "/", joined);
    if |segs| == 0 {
      SplitOnEmpty("/");
      FilterCons("", [""], NonEmpty);
      FilterCons("", [], NonEmpty);
    } else {
      SplitJoin('/', segs);
      FilterCons("", segs, NonEmpty);
      FilterAll(segs, NonEmpty);
    }
  }

  /** Segments are non-empty and free of `/`. */
  predicate ProperSegments(segs: seq<string>) {
    forall i :: 0 <= i < |segs| ==> |segs[i]| > 0 && '/' !in segs[i]
  }

  /** `currentPath` after the loop has seen `segs`: the first segment alone,
      each later one after a `/` (the empty path is falsy). */
  function CurrentPath(segs: seq<string>): string
  {
    if |segs| == 0 then ""
    else
      var p := CurrentPath(segs[..|segs| - 1]);
      if p != "" then p + "/" + segs[|segs| - 1] else segs[|segs| - 1]
  }

  /** For proper segments the running path is their `/`-join: non-empty once a
      segment is seen, with one `/` fewer than segments. */
  lemma {:induction false} CurrentPathIsJoin(segs: seq<string>)
    requires ProperSegments(segs)
    ensures CurrentPath(segs) == Join("/", segs)
    ensures CurrentPath(segs) == "" <==> |segs| == 0
    ensures |segs| > 0 ==> multiset(CurrentPath(segs))['/'] == |segs| - 1
    decreases |segs|
  {
    if |segs| > 0 {
      var init := segs[..|segs| - 1];
      var last := segs[|segs| - 1];
      CurrentPathIsJoin(init);
      assert segs == init + [last];
      JoinAppendPart("/", init, last);
      assert multiset(last)['/'] == 0;
      if |init| > 0 {
        var p := CurrentPath(init);
        assert multiset(p + "/" + last) == multiset(p) + multiset("/") + multiset(last);
      }
    }
  }

  // ---------------------------------------------------------------------------
  // The trie

  datatype NodeKind = Root | PathNode | QueryLeaf

  /** A `URLNode` without its children: the parent is kept as the path of the
      node whose `children` the node was pushed onto ("" for the root). */
  datatype TreeNode = TreeNode(
    kind: NodeKind,
    name: string,
    fullUrl: string,
    path: string,
    category: Option<string>,
    depth: nat,
    parent: string)

  /** The tree: the root, the path nodes keyed by path (`pathMap` without the
      root) and the query/fragment leaves in creation order. */
  datatype Tree = Tree(root: TreeNode, pathNodes: Record<TreeNode>, leaves: seq<TreeNode>)

  /** One iteration of the segment loop: create the node for `path` unless it exists. */
  function AddSegment(nodes: Record<TreeNode>, origin: string, segs: seq<string>, category: Option<string>)
    : (r: Record<TreeNode>)
    requires |segs| > 0
    ensures CurrentPath(segs) in Keys(r)
    ensures forall p :: p in Keys(nodes) ==> Get(r, p) == Get(nodes, p)
    ensures forall p :: p in Keys(r) <==> p in Keys(nodes) || p == CurrentPath(segs)
    ensures CurrentPath(segs) !in Keys(nodes) ==>
              Get(r, CurrentPath(segs)) == Some(TreeNode(PathNode, segs[|segs| - 1], origin + "/" + CurrentPath(segs),
                                                          CurrentPath(segs), category, |segs|,
                                                          CurrentPath(segs[..|segs| - 1])))
  {
    var path := CurrentPath(segs);
    if path in Keys(nodes) then nodes
    else
      Put(nodes, path, TreeNode(PathNode, segs[|segs| - 1], origin + "/" + path, path, category, |segs|,
                                CurrentPath(segs[..|segs| - 1])))
  }

  /** The running path after each segment of the loop, in order. */
  function PrefixPaths(segs: seq<string>): (ps: seq<string>)
    ensures |ps| == |segs|
    decreases |segs|
  {
    if |segs| == 0 then [] else PrefixPaths(segs[..|segs| - 1]) + [CurrentPath(segs)]
  }

  /** Entry `k - 1` of the running paths is the path of the first `k` segments. */
  lemma {:induction false} PrefixPathsAre(segs: seq<string>)
    ensures forall k :: 1 <= k <= |segs| ==> PrefixPaths(segs)[k - 1] == CurrentPath(segs[..k])
    decreases |segs|
  {
    if |segs| > 0 {
      var init := segs[..|segs| - 1];
      PrefixPathsAre(init);
      forall k | 1 <= k <= |segs|
        ensures PrefixPaths(segs)[k - 1] == CurrentPath(segs[..k])
      {
        if k < |segs| {
          assert init[..k] == segs[..k];
        } else {
          assert segs[..k] == segs;
        }
      }
    }
  }

  /** The whole segment loop for one link. */
  function AddPath(nodes: Record<TreeNode>, origin: string, segs: seq<string>, category: Option<string>)
    : (r: Record<TreeNode>)
    ensures forall p :: p in Keys(nodes) ==> Get(r, p) == Get(nodes, p)
    ensures forall p :: p in Keys(r) <==> p in Keys(nodes) || p in PrefixPaths(segs)
    ensures |segs| > 0 ==> CurrentPath(segs) in Keys(r)
    decreases |segs|
  {
    if |segs| == 0 then nodes
    else AddSegment(AddPath(nodes, origin, segs[..|segs| - 1], category), origin, segs, category)
  }

  /** After the loop every prefix of the link's path has a node, and a path
      that had none before is such a prefix. */
  lemma {:induction false} AddPathPrefixes(nodes: Record<TreeNode>, origin: string, segs: seq<string>, category: Option<string>)
    ensures var r := AddPath(nodes, origin, segs, category);
            (forall k :: 1 <= k <= |segs| ==> CurrentPath(segs[..k]) in Keys(r))
            && forall p :: p in Keys(r) ==> p in Keys(nodes) || exists k :: 1 <= k <= |segs| && p == CurrentPath(segs[..k])
  {
    var r := AddPath(nodes, origin, segs, category);
    var ps := PrefixPaths(segs);
    PrefixPathsAre(segs);
    forall k | 1 <= k <= |segs|
      ensures CurrentPath(segs[..k]) in Keys(r)
    {
      assert ps[k - 1] in ps;
    }
    forall p | p in Keys(r) && p !in Keys(nodes)
      ensures exists k :: 1 <= k <= |segs| && p == CurrentPath(segs[..k])
    {
      var i :| 0 <= i < |ps| && ps[i] == p;
      assert p == CurrentPath(segs[..i + 1]);
    }
  }

  /** `currentNode.depth` after the segment loop. */
  function CurrentDepth(nodes: Record<TreeNode>, path: string): nat {
    if path == "" then 0
    else match Get(nodes, path)
      case Some(n) => n.depth
      case None => 0
  }

  /** One `forEach` iteration over the links. */
  function AddLink(t: Tree, link: string, parser: UrlParser, cats: seq<(string, UrlCategory)>): (r: Tree)
    ensures r.root == t.root
  {
    match parser(link)
    case None => t
    case Some(url) =>
      var segs := Segments(url.pathname);
      var category := CategoryForUrl(cats, link);
      var nodes := AddPath(t.pathNodes, url.origin, segs, category);
      var path := CurrentPath(segs);
      if url.search != "" || url.hash != "" then
        Tree(t.root, nodes, t.leaves + [QueryLeafFor(url, link, nodes, path, category)])
      else
        Tree(t.root, nodes, t.leaves)
  }

  /** The leaf pushed under the node of `path` for a link with a query or
      fragment: its path extends its parent's by exactly the query and
      fragment, which also name it (or "params" when both are empty), it shows
      the link with the link's category, and it sits one level below its parent. */
  function QueryLeafFor(url: UrlParts, link: string, nodes: Record<TreeNode>, path: string, category: Option<string>)
    : (leaf: TreeNode)
    ensures leaf.kind == QueryLeaf && leaf.fullUrl == link && leaf.category == category
    ensures leaf.parent == path && leaf.parent <= leaf.path
    ensures leaf.path[|leaf.parent|..] == url.search + url.hash
    ensures leaf.name != ""
    ensures leaf.name == leaf.path[|leaf.parent|..] <==> url.search + url.hash != ""
    ensures leaf.depth == CurrentDepth(nodes, leaf.parent) + 1
  {
    var suffix := url.search + url.hash;
    TreeNode(QueryLeaf, if suffix != "" then suffix else "params", link, path + suffix,
             category, CurrentDepth(nodes, path) + 1, path)
  }

  /** The links processed in order. */
  function AddLinks(t: Tree, links: seq<string>, parser: UrlParser, cats: seq<(string, UrlCategory)>): (r: Tree)
    ensures r.root == t.root
    decreases |links|
  {
    if |links| == 0 then t
    else AddLink(AddLinks(t, links[..|links| - 1], parser, cats), links[|links| - 1], parser, cats)
  }

  /** `treeData`: `None` when the base URL itself does not parse (the memo throws). */
  function BuildTree(baseUrl: string, links: seq<string>, parser: UrlParser, cats: seq<(string, UrlCategory)>,
                     selected: seq<string>, showOnlySelected: bool): (r: Option<Tree>)
    ensures r.None? <==> parser(baseUrl).None?
    ensures r.Some? ==> r.value.root == TreeNode(Root, parser(baseUrl).value.hostname, baseUrl, "", None, 0, "")
  {
    match parser(baseUrl)
    case None => None
    case Some(base) =>
      var root := TreeNode(Root, base.hostname, baseUrl, "", None, 0, "");
      Some(AddLinks(Tree(root, Empty(), []), TreeLinks(links, cats, selected, showOnlySelected), parser, cats))
  }

  // ---------------------------------------------------------------------------
  // Tree invariants

  /** Every path node sits under its key, has depth one more than the `/`s in
      its path, and hangs under the root (depth 1) or under a path node one
      level up. */
  predicate PathNodesWellFormed(nodes: Record<TreeNode>) {
    forall p :: p in Keys(nodes) ==> NodeWellFormed(nodes, p)
  }

  predicate NodeWellFormed(nodes: Record<TreeNode>, p: string)
    requires p in Keys(nodes)
  {
    var n := Get(nodes, p).value;
    n.kind == PathNode && n.path == p && p != "" && n.depth == multiset(p)['/'] + 1
    && (n.depth == 1 <==> n.parent == "")
    && (n.parent != "" ==> n.parent in Keys(nodes) && Get(nodes, n.parent).value.depth == n.depth - 1)
  }

  /** A node that was well formed stays so when nodes are only added. */
  lemma {:induction false} OldNodeStays(nodes: Record<TreeNode>, r: Record<TreeNode>, p: string)
    requires p in Keys(nodes) && NodeWellFormed(nodes, p)
    requires forall q :: q in Keys(nodes) ==> q in Keys(r) && Get(r, q) == Get(nodes, q)
    ensures p in Keys(r) && NodeWellFormed(r, p)
  {
    var n := Get(nodes, p).value;
    if n.parent != "" {
      assert Get(r, n.parent) == Get(nodes, n.parent);
    }
  }

  lemma {:induction false} AddSegmentWellFormed(nodes: Record<TreeNode>, origin: string, segs: seq<string>, category: Option<string>)
    requires |segs| > 0 && ProperSegments(segs)
    requires PathNodesWellFormed(nodes)
    requires CurrentPath(segs[..|segs| - 1]) == "" || CurrentPath(segs[..|segs| - 1]) in Keys(nodes)
    ensures PathNodesWellFormed(AddSegment(nodes, origin, segs, category))
  {
    var init := segs[..|segs| - 1];
    CurrentPathIsJoin(segs);
    CurrentPathIsJoin(init);
    var r := AddSegment(nodes, origin, segs, category);
    var path := CurrentPath(segs);
    if path !in Keys(nodes) {
      forall p | p in Keys(r)
        ensures NodeWellFormed(r, p)
      {
        if p != path {
          OldNodeStays(nodes, r, p);
        } else if |init| > 0 {
          assert Get(r, CurrentPath(init)) == Get(nodes, CurrentPath(init));
        }
      }
    }
  }

  lemma {:induction false} AddPathWellFormed(nodes: Record<TreeNode>, origin: string, segs: seq<string>,
                                             category: Option<string>)
    requires ProperSegments(segs)
    requires PathNodesWellFormed(nodes)
    ensures PathNodesWellFormed(AddPath(nodes, origin, segs, category))
    decreases |segs|
  {
    if |segs| > 0 {
      var init := segs[..|segs| - 1];
      AddPathWellFormed(nodes, origin, init, category);
      var before := AddPath(nodes, origin, init, category);
      if |init| > 0 {
        assert init[..|init|] == init;
      }
      AddSegmentWellFormed(before, origin, segs, category);
    }
  }

  /** The invariant of the whole tree: well-formed path nodes, and every leaf
      hangs under the root or a path node, one level below it, and shows its link. */
  predicate TreeWellFormed(t: Tree) {
    PathNodesWellFormed(t.pathNodes) && LeavesWellFormed(t.pathNodes, t.leaves)
  }

  predicate LeafWellFormed(nodes: Record<TreeNode>, leaf: TreeNode) {
    leaf.kind == QueryLeaf
    && (leaf.parent == "" || leaf.parent in Keys(nodes))
    && leaf.depth == CurrentDepth(nodes, leaf.parent) + 1
  }

  predicate LeavesWellFormed(nodes: Record<TreeNode>, leaves: seq<TreeNode>) {
    forall i :: 0 <= i < |leaves| ==> LeafWellFormed(nodes, leaves[i])
  }

  /** Leaves stay well formed when path nodes are only added. */
  lemma {:induction false} LeavesSurviveGrowth(before: Record<TreeNode>, nodes: Record<TreeNode>, leaves: seq<TreeNode>)
    requires LeavesWellFormed(before, leaves)
    requires forall p :: p in Keys(before) ==> Get(nodes, p) == Get(before, p)
    ensures LeavesWellFormed(nodes, leaves)
  {
    forall i | 0 <= i < |leaves|
      ensures LeafWellFormed(nodes, leaves[i])
    {
      var parent := leaves[i].parent;
      if parent != "" {
        assert Get(nodes, parent) == Get(before, parent);
      }
    }
  }

  /** The leaf `AddLink` creates is well formed once the link's path exists. */
  lemma {:induction false} NewLeafWellFormed(t: Tree, link: string, parser: UrlParser, cats: seq<(string, UrlCategory)>)
    requires parser(link).Some?
    ensures var url := parser(link).value;
            var nodes := AddPath(t.pathNodes, url.origin, Segments(url.pathname), CategoryForUrl(cats, link));
            var r := AddLink(t, link, parser, cats);
            r.pathNodes == nodes
            && r.leaves[..|t.leaves|] == t.leaves
            && forall i :: |t.leaves| <= i < |r.leaves| ==> LeafWellFormed(nodes, r.leaves[i])
  {
    var url := parser(link).value;
    var segs := Segments(url.pathname);
    var nodes := AddPath(t.pathNodes, url.origin, segs, CategoryForUrl(cats, link));
    var path := CurrentPath(segs);
    assert path == "" || path in Keys(nodes);
    var r := AddLink(t, link, parser, cats);
    if url.search != "" || url.hash != "" {
      var leaf := QueryLeafFor(url, link, nodes, path, CategoryForUrl(cats, link));
      assert r.leaves == t.leaves + [leaf];
      assert LeafWellFormed(nodes, leaf);
    } else {
      assert r.leaves == t.leaves;
    }
  }

  /** Processing one link keeps the tree well formed, keeps every existing
      path node as it was, and gives the link a node for each prefix of its
      path. */
  lemma {:induction false} AddLinkFacts(t: Tree, link: string, parser: UrlParser, cats: seq<(string, UrlCategory)>)
    requires TreeWellFormed(t)
    ensures var r := AddLink(t, link, parser, cats);
            TreeWellFormed(r)
            && t.leaves <= r.leaves
            && (forall p :: p in Keys(t.pathNodes) ==> Get(r.pathNodes, p) == Get(t.pathNodes, p))
    ensures parser(link).Some? ==>
              var segs := Segments(parser(link).value.pathname);
              var r := AddLink(t, link, parser, cats);
              forall k :: 1 <= k <= |segs| ==> CurrentPath(segs[..k]) in Keys(r.pathNodes)
  {
    if parser(link).Some? {
      var url := parser(link).value;
      var segs := Segments(url.pathname);
      var category := CategoryForUrl(cats, link);
      AddPathWellFormed(t.pathNodes, url.origin, segs, category);
      var nodes := AddPath(t.pathNodes, url.origin, segs, category);
      var r := AddLink(t, link, parser, cats);
      NewLeafWellFormed(t, link, parser, cats);
      AddPathPrefixes(t.pathNodes, url.origin, segs, category);
      LeavesSurviveGrowth(t.pathNodes, nodes, t.leaves);
      assert LeavesWellFormed(nodes, r.leaves) by {
        forall i | 0 <= i < |r.leaves|
          ensures LeafWellFormed(nodes, r.leaves[i])
        {
          if i < |t.leaves| {
            assert r.leaves[i] == r.leaves[..|t.leaves|][i];
          }
        }
      }
    }
  }

  /** A leaf for a link with a query or fragment sits one level below the
      node of the link's last segment (its depth is the segment count plus
      one), is named by the query and fragment, extends the link's path by
      them, and carries the link's category. */
  lemma {:induction false} LeafDepth(t: Tree, link: string, parser: UrlParser, cats: seq<(string, UrlCategory)>)
    requires TreeWellFormed(t)
    requires parser(link).Some? && (parser(link).value.search != "" || parser(link).value.hash != "")
    ensures var r := AddLink(t, link, parser, cats);
            var segs := Segments(parser(link).value.pathname);
            |r.leaves| == |t.leaves| + 1
            && r.leaves[|t.leaves|].depth == |segs| + 1
            && r.leaves[|t.leaves|].parent == Join("/", segs)
            && r.leaves[|t.leaves|].fullUrl == link
    ensures var url := parser(link).value;
            var leaf := AddLink(t, link, parser, cats).leaves[|t.leaves|];
            leaf.kind == QueryLeaf
            && leaf.name == url.search + url.hash
            && leaf.path == Join("/", Segments(url.pathname)) + url.search + url.hash
            && leaf.category == CategoryForUrl(cats, link)
  {
    var url := parser(link).value;
    var segs := Segments(url.pathname);
    var category := CategoryForUrl(cats, link);
    var nodes := AddPath(t.pathNodes, url.origin, segs, category);
    var path := CurrentPath(segs);
    AddPathDepth(t.pathNodes, url.origin, segs, category);
    CurrentPathIsJoin(segs);
    assert AddLink(t, link, parser, cats).leaves == t.leaves + [QueryLeafFor(url, link, nodes, path, category)];
  }

  /** The node reached after the segment loop is as deep as there are segments. */
  lemma {:induction false} AddPathDepth(nodes: Record<TreeNode>, origin: string, segs: seq<string>, category: Option<string>)
    requires ProperSegments(segs)
    requires PathNodesWellFormed(nodes)
    ensures CurrentDepth(AddPath(nodes, origin, segs, category), CurrentPath(segs)) == |segs|
  {
    var r := AddPath(nodes, origin, segs, category);
    AddPathWellFormed(nodes, origin, segs, category);
    CurrentPathIsJoin(segs);
    if |segs| > 0 {
      assert NodeWellFormed(r, CurrentPath(segs));
    }
  }

  /** The whole build keeps the tree well formed and never replaces a path
      node once created, so each node keeps the category of the link that
      created it. */
  lemma {:induction false} AddLinksFacts(t: Tree, links: seq<string>, parser: UrlParser,
                                         cats: seq<(string, UrlCategory)>)
    requires TreeWellFormed(t)
    ensures var r := AddLinks(t, links, parser, cats);
            TreeWellFormed(r)
            && r.root == t.root
            && (forall p :: p in Keys(t.pathNodes) ==> Get(r.pathNodes, p) == Get(t.pathNodes, p))
    decreases |links|
  {
    if |links| > 0 {
      var init := links[..|links| - 1];
      AddLinksFacts(t, init, parser, cats);
      AddLinkFacts(AddLinks(t, init, parser, cats), links[|links| - 1], parser, cats);
    }
  }

  /** A link the parser rejects is skipped, and the links after it are still
      processed. */
  lemma {:induction false} BadLinkIsSkipped(t: Tree, before: seq<string>, bad: string, after: seq<string>,
                                            parser: UrlParser, cats: seq<(string, UrlCategory)>)
    requires parser(bad).None?
    ensures AddLinks(t, before + [bad] + after, parser, cats) == AddLinks(t, before + after, parser, cats)
    decreases |after|
  {
    if |after| == 0 {
      assert before + [bad] + after == before + [bad];
      assert (before + [bad])[..|before|] == before;
      assert before + after == before;
    } else {
      var init := after[..|after| - 1];
      var last := after[|after| - 1];
      assert before + [bad] + after == (before + [bad] + init) + [last] by {
        assert after == init + [last];
      }
      assert before + after == (before + init) + [last] by {
        assert after == init + [last];
      }
      BadLinkIsSkipped(t, before, bad, init, parser, cats);
      assert ((before + [bad] + init) + [last])[..|before + [bad] + init|] == before + [bad] + init;
      assert ((before + init) + [last])[..|before + init|] == before + init;
    }
  }

  /** `p` is the path after the first `k` segments of a link the parser accepts. */
  predicate PathOfLink(parser: UrlParser, link: string, k: int, p: string) {
    parser(link).Some?
    && 1 <= k <= |Segments(parser(link).value.pathname)|
    && p == CurrentPath(Segments(parser(link).value.pathname)[..k])
  }

  /** The built tree is well formed, and its path nodes are exactly the prefix
      paths of the links the tree shows that the parser accepts. */
  lemma {:induction false} BuildTreeFacts(baseUrl: string, links: seq<string>, parser: UrlParser, cats: seq<(string, UrlCategory)>,
                       selected: seq<string>, showOnlySelected: bool)
    requires parser(baseUrl).Some?
    ensures TreeWellFormed(BuildTree(baseUrl, links, parser, cats, selected, showOnlySelected).value)
    ensures var tree := BuildTree(baseUrl, links, parser, cats, selected, showOnlySelected).value;
            var shown := TreeLinks(links, cats, selected, showOnlySelected);
            forall p :: p in Keys(tree.pathNodes) <==> exists i, k :: 0 <= i < |shown| && PathOfLink(parser, shown[i], k, p)
  {
    var root := TreeNode(Root, parser(baseUrl).value.hostname, baseUrl, "", None, 0, "");
    var start := Tree(root, Empty(), []);
    var shown := TreeLinks(links, cats, selected, showOnlySelected);
    var tree := AddLinks(start, shown, parser, cats);
    AddLinksFacts(start, shown, parser, cats);
    AddLinksKeys(start, shown, parser, cats);
    forall p | exists i, k :: 0 <= i < |shown| && PathOfLink(parser, shown[i], k, p)
      ensures p in Keys(tree.pathNodes)
    {
      var i, k :| 0 <= i < |shown| && PathOfLink(parser, shown[i], k, p);
      LinksCovered(start, shown, parser, cats, i, k);
    }
  }

  /** Every path node of the build was there at the start or is a prefix path
      of one of the processed links. */
  lemma {:induction false} AddLinksKeys(t: Tree, links: seq<string>, parser: UrlParser, cats: seq<(string, UrlCategory)>)
    ensures forall p :: p in Keys(AddLinks(t, links, parser, cats).pathNodes) ==>
              p in Keys(t.pathNodes) || exists i, k :: 0 <= i < |links| && PathOfLink(parser, links[i], k, p)
    decreases |links|
  {
    if |links| > 0 {
      var init := links[..|links| - 1];
      var last := links[|links| - 1];
      var before := AddLinks(t, init, parser, cats);
      AddLinksKeys(t, init, parser, cats);
      forall p | p in Keys(AddLinks(t, links, parser, cats).pathNodes) && p !in Keys(t.pathNodes)
        ensures exists i, k :: 0 <= i < |links| && PathOfLink(parser, links[i], k, p)
      {
        if p in Keys(before.pathNodes) {
          var i, k :| 0 <= i < |init| && PathOfLink(parser, init[i], k, p);
          assert links[i] == init[i];
        } else {
          var url := parser(last).value;
          var segs := Segments(url.pathname);
          NewLeafWellFormed(before, last, parser, cats);
          AddPathPrefixes(before.pathNodes, url.origin, segs, CategoryForUrl(cats, last));
          var k :| 1 <= k <= |segs| && p == CurrentPath(segs[..k]);
          assert PathOfLink(parser, links[|links| - 1], k, p);
        }
      }
    }
  }

  /** Every link processed so far has a node for each prefix of its path. */
  lemma {:induction false} LinksCovered(t: Tree, links: seq<string>, parser: UrlParser,
                                        cats: seq<(string, UrlCategory)>, i: nat, k: nat)
    requires TreeWellFormed(t)
    requires i < |links| && parser(links[i]).Some?
    requires 1 <= k <= |Segments(parser(links[i]).value.pathname)|
    ensures CurrentPath(Segments(parser(links[i]).value.pathname)[..k]) in Keys(AddLinks(t, links, parser, cats).pathNodes)
    decreases |links|
  {
    var init := links[..|links| - 1];
    var last := links[|links| - 1];
    var before := AddLinks(t, init, parser, cats);
    var after := AddLinks(t, links, parser, cats);
    var p := CurrentPath(Segments(parser(links[i]).value.pathname)[..k]);
    AddLinksFacts(t, init, parser, cats);
    AddLinkFacts(before, last, parser, cats);
    assert after == AddLink(before, last, parser, cats);
    if i < |init| {
      assert init[i] == links[i];
      LinksCovered(t, init, parser, cats, i, k);
      assert Get(after.pathNodes, p) == Get(before.pathNodes, p);
    } else {
      assert links[i] == last;
    }
  }

  // ---------------------------------------------------------------------------
  // Expanded nodes

  /** `toggleNode`: flip the membership of one path. */
  function ToggleNode(expanded: set<string>, path: string): (r: set<string>)
    ensures path in r <==> path !in expanded
    ensures forall p :: p != path ==> (p in r <==> p in expanded)
  {
    if path in expanded then expanded - {path} else expanded + {path}
  }

  /** Toggling the same path twice restores the set. */
  lemma {:induction false} ToggleNodeTwice(expanded: set<string>, path: string)
    ensures ToggleNode(ToggleNode(expanded, path), path) == expanded
  {
  }
}
