/** The driver (`get_tree_file`): build the matrix, merge the closest pair
    n-1 times with the chosen strategy, and keep the names, the Newick
    fragments and the ledger in step. */
module Clusters {
  import opened Matrix
  import opened Build
  import opened Reduction
  import opened Names
  import opened Ledger

  /** The method option: anything but "upgma" runs NJ. */
  function ParseMethod(s: string): (k: Strategy)
    ensures k == Upgma <==> s == "upgma"
    ensures k == Nj <==> s != "upgma"
  {
    if s == "upgma" then Upgma else Nj
  }

  /** The program's test for a merged cluster: its name ends in ')'. */
  function IsComposite(s: string): (b: bool)
    ensures NoBrackets(s) ==> !b
    ensures forall a, c :: s == Bracket(a, c) ==> b
  {
    |s| > 0 && s[|s| - 1] == ')'
  }

  /** The ledger layer a merge of pre and post appends to. */
  function MergeLayer(pre: string, post: string): (d: nat)
    ensures !IsComposite(pre) && !IsComposite(post) ==> d == 0
    ensures !IsComposite(pre) && IsComposite(post) ==> d == Depth(post)
    ensures IsComposite(pre) && !IsComposite(post) ==> d == Depth(pre)
    ensures IsComposite(pre) && IsComposite(post) ==> d == MaxDepth(pre, post)
  {
    if !IsComposite(pre) then (if !IsComposite(post) then 0 else Depth(post))
    else if !IsComposite(post) then Depth(pre)
    else MaxDepth(pre, post)
  }

  /** Whether the lookups the matching merge function does succeed. */
  function LookupsSucceed(labels: seq<seq<Pair>>, pre: string, post: string): bool
  {
    if !IsComposite(pre) then (!IsComposite(post) || CompositeLookup(labels, post).Some?)
    else if !IsComposite(post) then CompositeLookup(labels, pre).Some?
    else CompositeLookup(labels, pre).Some? && CompositeLookup(labels, post).Some?
  }

  /** A leaf merge never needs a lookup; a merge with a composite side
      succeeds only if that side's depth is a ledger layer. */
  lemma LookupsSucceedNeedsLayer(labels: seq<seq<Pair>>, pre: string, post: string)
    ensures !IsComposite(pre) && !IsComposite(post) ==> LookupsSucceed(labels, pre, post)
    ensures LookupsSucceed(labels, pre, post) ==> MergeLayer(pre, post) <= |labels|
    ensures LookupsSucceed(labels, pre, post) && IsComposite(pre) ==> 1 <= Depth(pre)
    ensures LookupsSucceed(labels, pre, post) && IsComposite(post) ==> 1 <= Depth(post)
  {
  }

  /** The reference a merge records for one side: a leaf's own name, or
      the numbered reference the lookup of a composite side returns. */
  function SideRef(labels: seq<seq<Pair>>, name: string): string
    requires !IsComposite(name) || CompositeLookup(labels, name).Some?
  {
    if IsComposite(name) then CompositeLookup(labels, name).value.0 else name
  }

  /** The ledger entry of a merge of pre and post. */
  function MergeEntry(labels: seq<seq<Pair>>, pre: string, post: string): Pair
    requires LookupsSucceed(labels, pre, post)
  {
    Pair(SideRef(labels, pre), SideRef(labels, post))
  }

  /** The branch length UPGMA writes on side `name` of a merge with
      `other`: half of min_dis between two leaves, min_dis on a leaf
      next to a composite, and SideLength on a composite. */
  function UpgmaSide(labels: seq<seq<Pair>>, ds: seq<seq<real>>, name: string, other: string, minDis: real): real
    requires Lockstep(labels, ds) && (!IsComposite(name) || CompositeLookup(labels, name).Some?)
  {
    if IsComposite(name) then SideLength(labels, ds, name, minDis)
    else if IsComposite(other) then minDis
    else minDis / 2.0
  }

  /** The Newick fragment a merge writes at row. */
  function MergeNewick(kind: Strategy, numText: real -> string, labels: seq<seq<Pair>>, ds: seq<seq<real>>,
                       pre: string, post: string, preDis: string, postDis: string, minDis: real, d1: real, d2: real): string
    requires Lockstep(labels, ds) && LookupsSucceed(labels, pre, post)
  {
    if kind == Upgma then
      Annotated(preDis, numText(UpgmaSide(labels, ds, pre, post, minDis)),
                postDis, numText(UpgmaSide(labels, ds, post, pre, minDis)))
    else Annotated(preDis, numText(d1), postDis, numText(d2))
  }

  /** The lists after a loop pass merges names[row] and names[col+1]
      (one of the eight merge functions, then the pop of entry col+1):
      the bracketed name at row, its Newick fragment with the two
      branch lengths, the entry and its lengths at MergeLayer. */
  function AfterMerge(kind: Strategy, numText: real -> string, l: Lists, row: nat, col: nat,
                      minDis: real, d1: real, d2: real): (r: Lists)
    requires Shaped(kind, l.names, l.newicks, l.labels, l.ds1, l.ds2)
    requires row < |l.names| && col + 1 < |l.names|
    requires LookupsSucceed(l.labels, l.names[row], l.names[col + 1])
    ensures MergeLayer(l.names[row], l.names[col + 1]) <= |l.labels|
    ensures r.names == Merged(l.names, row, col + 1)
    ensures r.labels == AppendAt(l.labels, MergeLayer(l.names[row], l.names[col + 1]),
                                 MergeEntry(l.labels, l.names[row], l.names[col + 1]))
  {
    var pre, post := l.names[row], l.names[col + 1];
    LookupsSucceedNeedsLayer(l.labels, pre, post);
    var d := MergeLayer(pre, post);
    Lists(Merged(l.names, row, col + 1),
          Remove(l.newicks[row := MergeNewick(kind, numText, l.labels, l.ds1, pre, post,
                                              l.newicks[row], l.newicks[col + 1], minDis, d1, d2)], col + 1),
          AppendAt(l.labels, d, MergeEntry(l.labels, pre, post)),
          AppendAt(l.ds1, d, if kind == Upgma then minDis else d1),
          if kind == Nj then AppendAt(l.ds2, d, d2) else l.ds2)
  }

  /** The dispatch of one loop step (get_clusters.py): the two names'
      shapes pick the one matching merge function of the strategy. */
  method Dispatch(book: TreeBook, row: nat, col: nat, minDis: real, d1: real, d2: real) returns (ok: bool)
    requires book.Valid() && row < |book.nameAll| && col + 1 < |book.nameAll|
    modifies book
    ensures book.Valid()
    ensures ok == LookupsSucceed(old(book.labels), old(book.nameAll)[row], old(book.nameAll)[col + 1])
    ensures !ok ==> unchanged(book)
    ensures ok ==> var pre, post := old(book.nameAll)[row], old(book.nameAll)[col + 1];
      book.nameAll == old(book.nameAll)[row := Bracket(pre, post)] &&
      book.nameDistances == old(book.nameDistances)[row := MergeNewick(book.kind, book.numText,
        old(book.labels), old(book.distances1), pre, post,
        old(book.nameDistances)[row], old(book.nameDistances)[col + 1], minDis, d1, d2)] &&
      book.labels == AppendAt(old(book.labels), MergeLayer(pre, post), MergeEntry(old(book.labels), pre, post)) &&
      book.distances1 == AppendAt(old(book.distances1), MergeLayer(pre, post), if book.kind == Upgma then minDis else d1) &&
      book.distances2 == (if book.kind == Nj then AppendAt(old(book.distances2), MergeLayer(pre, post), d2) else old(book.distances2))
    ensures ok ==> TotalSize(book.labels) == TotalSize(old(book.labels)) + 1
  {
    if book.kind == Upgma {
      ok := DispatchUpgma(book, row, col, minDis);
    } else {
      ok := DispatchNj(book, row, col, d1, d2);
    }
  }

  /** The UPGMA branches of the dispatch. */
  method DispatchUpgma(book: TreeBook, row: nat, col: nat, minDis: real) returns (ok: bool)
    requires book.Valid() && book.kind == Upgma && row < |book.nameAll| && col + 1 < |book.nameAll|
    modifies book
    ensures book.Valid()
    ensures ok == LookupsSucceed(old(book.labels), old(book.nameAll)[row], old(book.nameAll)[col + 1])
    ensures !ok ==> unchanged(book)
    ensures ok ==> var pre, post := old(book.nameAll)[row], old(book.nameAll)[col + 1];
      book.nameAll == old(book.nameAll)[row := Bracket(pre, post)] &&
      book.nameDistances == old(book.nameDistances)[row := Annotated(
        old(book.nameDistances)[row], book.numText(UpgmaSide(old(book.labels), old(book.distances1), pre, post, minDis)),
        old(book.nameDistances)[col + 1], book.numText(UpgmaSide(old(book.labels), old(book.distances1), post, pre, minDis)))] &&
      book.labels == AppendAt(old(book.labels), MergeLayer(pre, post), MergeEntry(old(book.labels), pre, post)) &&
      book.distances1 == AppendAt(old(book.distances1), MergeLayer(pre, post), minDis) &&
      book.distances2 == old(book.distances2)
    ensures ok ==> TotalSize(book.labels) == TotalSize(old(book.labels)) + 1
  {
    var pre, preDis := book.nameAll[row], book.nameDistances[row];
    var post, postDis := book.nameAll[col + 1], book.nameDistances[col + 1];
    if pre[|pre| - 1] != ')' {
      if post[|post| - 1] != ')' {
        book.SingleSingleUpgma(row, pre, post, minDis, preDis, postDis);
        ok := true;
      } else {
        ok := book.SingleCompUpgma(row, pre, post, minDis, preDis, postDis);
      }
    } else {
      if post[|post| - 1] != ')' {
        ok := book.CompSingleUpgma(row, pre, post, minDis, preDis, postDis);
      } else {
        ok := book.CompCompUpgma(row, pre, post, minDis, preDis, postDis);
      }
    }
  }

  /** The NJ branches of the dispatch. */
  method DispatchNj(book: TreeBook, row: nat, col: nat, d1: real, d2: real) returns (ok: bool)
    requires book.Valid() && book.kind == Nj && row < |book.nameAll| && col + 1 < |book.nameAll|
    modifies book
    ensures book.Valid()
    ensures ok == LookupsSucceed(old(book.labels), old(book.nameAll)[row], old(book.nameAll)[col + 1])
    ensures !ok ==> unchanged(book)
    ensures ok ==> var pre, post := old(book.nameAll)[row], old(book.nameAll)[col + 1];
      book.nameAll == old(book.nameAll)[row := Bracket(pre, post)] &&
      book.nameDistances == old(book.nameDistances)[row := Annotated(
        old(book.nameDistances)[row], book.numText(d1), old(book.nameDistances)[col + 1], book.numText(d2))] &&
      book.labels == AppendAt(old(book.labels), MergeLayer(pre, post), MergeEntry(old(book.labels), pre, post)) &&
      book.distances1 == AppendAt(old(book.distances1), MergeLayer(pre, post), d1) &&
      book.distances2 == AppendAt(old(book.distances2), MergeLayer(pre, post), d2)
    ensures ok ==> TotalSize(book.labels) == TotalSize(old(book.labels)) + 1
  {
    var pre, preDis := book.nameAll[row], book.nameDistances[row];
    var post, postDis := book.nameAll[col + 1], book.nameDistances[col + 1];
    if pre[|pre| - 1] != ')' {
      if post[|post| - 1] != ')' {
        book.SingleSingleNj(row, pre, post, d1, d2, preDis, postDis);
        ok := true;
      } else {
        ok := book.SingleCompNj(row, pre, post, d1, d2, preDis, postDis);
      }
    } else {
      if post[|post| - 1] != ')' {
        ok := book.CompSingleNj(row, pre, post, d1, d2, preDis, postDis);
      } else {
        ok := book.CompCompNj(row, pre, post, d1, d2, preDis, postDis);
      }
    }
  }

  // ---------------------------------------------------------------------
  // Every lookup succeeds

  /** Every entry's first reference has a key (get_num_prelayer can cut
      it at its first 'p'). */
  ghost predicate EntriesKeyed(labels: seq<seq<Pair>>)
  {
    forall d, j | 0 <= d < |labels| && 0 <= j < |labels[d]| :: EntryKey(labels[d][j].first).Some?
  }

  /** Layer h-1 holds an entry keyed by leaf. */
  ghost predicate Recorded(labels: seq<seq<Pair>>, h: nat, leaf: string)
  {
    1 <= h <= |labels| && InLayer(labels[h - 1], leaf)
  }

  /** Some entry of the layer is keyed by leaf. */
  ghost predicate InLayer(layer: seq<Pair>, leaf: string)
  {
    exists j | 0 <= j < |layer| :: EntryKey(layer[j].first) == Some(leaf)
  }

  /** name is the cluster t, and a merged t has an entry keyed by its first
      leaf in the layer below its height. */
  ghost predicate TracedOne(t: Tree, name: string, labels: seq<seq<Pair>>)
  {
    WellFormed(t) && name == Render(t) && (t.Node? ==> Recorded(labels, Height(t), FirstLeafOf(t)))
  }

  /** What the merges keep: every active name is a cluster traced in the
      ledger, and every entry has a key. */
  ghost predicate Traced(trees: seq<Tree>, names: seq<string>, labels: seq<seq<Pair>>)
  {
    |trees| == |names| && EntriesKeyed(labels) &&
    forall k {:trigger TracedOne(trees[k], names[k], labels)} | 0 <= k < |trees| :: TracedOne(trees[k], names[k], labels)
  }

  /** The clusters after a merge, as Merged changes the names. */
  function MergedTrees(ts: seq<Tree>, row: nat, c: nat): (us: seq<Tree>)
    requires row < |ts| && c < |ts|
    ensures |us| == |ts| - 1
  {
    Remove(ts[row := Node(ts[row], ts[c])], c)
  }

  /** The clusters of the bare ids: one leaf each. */
  function LeafTrees(ids: seq<string>): (ts: seq<Tree>)
    ensures |ts| == |ids| && forall k | 0 <= k < |ids| :: ts[k] == Leaf("p" + ids[k])
  {
    seq(|ids|, k requires 0 <= k < |ids| => Leaf("p" + ids[k]))
  }

  /** A side of a traced merge: it is composite exactly when its cluster is
      merged, its depth is the cluster's height, its lookup succeeds, and
      the reference recorded for it is keyed by the cluster's first leaf. */
  lemma SideOfTree(t: Tree, name: string, labels: seq<seq<Pair>>)
    requires EntriesKeyed(labels) && TracedOne(t, name, labels)
    ensures IsComposite(name) <==> t.Node?
    ensures Depth(name) == Height(t)
    ensures IsComposite(name) ==> CompositeLookup(labels, name).Some?
    ensures EntryKey(SideRef(labels, name)) == Some(FirstLeafOf(t))
  {
    RenderEnd(t);
    DepthOfTree(t);
    FirstLeafOfTree(t);
    if t.Node? {
      LookupOfTree(t, name, labels);
    }
  }

  /** The lookup of a traced merged cluster finds the entry keyed by its
      first leaf. */
  lemma LookupOfTree(t: Tree, name: string, labels: seq<seq<Pair>>)
    requires EntriesKeyed(labels) && Recorded(labels, Height(t), FirstLeafOf(t))
    requires Depth(name) == Height(t) && TakeUntilComma(RemoveBrackets(name)) == FirstLeafOf(t)
    requires |FirstLeafOf(t)| > 0 && FirstLeafOf(t)[0] == 'p'
    ensures CompositeLookup(labels, name).Some?
    ensures EntryKey(CompositeLookup(labels, name).value.0) == Some(FirstLeafOf(t))
  {
    var h, first := Height(t), FirstLeafOf(t);
    var layer := labels[h - 1];
    assert InLayer(layer, first);
    assert forall i | 0 <= i < |layer| :: EntryKey(layer[i].first).Some? by {
      forall i | 0 <= i < |layer| ensures EntryKey(layer[i].first).Some? {
        assert EntryKey(labels[h - 1][i].first).Some?;
      }
    }
    LayerLookupKey(layer, first);
    CompositeLookupAt(labels, name, h, first);
  }

  /** The lookup of a name reads the layer below its depth. */
  lemma CompositeLookupAt(labels: seq<seq<Pair>>, name: string, d: nat, first: string)
    requires 1 <= d <= |labels| && Depth(name) == d && TakeUntilComma(RemoveBrackets(name)) == first
    ensures CompositeLookup(labels, name) == PrelayerLookup(labels[d - 1], first)
  {
  }

  /** In a layer whose entries all have keys, the lookup of a key some
      entry has finds an entry with that key. */
  lemma LayerLookupKey(layer: seq<Pair>, first: string)
    requires forall i | 0 <= i < |layer| :: EntryKey(layer[i].first).Some?
    requires InLayer(layer, first) && |first| > 0 && first[0] == 'p'
    ensures PrelayerLookup(layer, first).Some?
    ensures EntryKey(PrelayerLookup(layer, first).value.0) == Some(first)
  {
    PrelayerLookupMeaning(layer, first);
    var i :| 0 <= i < |layer| && EntryKey(layer[i].first) == Some(first) &&
      PrelayerLookup(layer, first).value.0 == NatText(i) + first;
    StripLayerIndex(i, first);
    var v := NatText(i) + first;
    assert EntryKey(v) == Some(v[FirstP(v)..]);
  }

  /** Appending an entry with a key keeps every entry keyed. */
  lemma KeyedAppend(labels: seq<seq<Pair>>, d: nat, x: Pair)
    requires EntriesKeyed(labels) && d <= |labels| && EntryKey(x.first).Some?
    ensures EntriesKeyed(AppendAt(labels, d, x))
  {
    var labels': seq<seq<Pair>> := AppendAt(labels, d, x);
    AppendAtAppendsOne(labels, d, x);
    forall e: nat, j: nat | 0 <= e < |labels'| && 0 <= j < |labels'[e]| ensures EntryKey(labels'[e][j].first).Some? {
      if e != d {
        assert labels'[e] == labels[e];
      } else if j < |labels'[e]| - 1 {
        assert labels'[e][j] == labels'[e][..|labels'[e]| - 1][j] == labels[e][j];
      } else {
        assert labels'[e][j] == x;
      }
    }
  }

  /** An append keeps what the ledger recorded. */
  lemma TracedOneGrows(t: Tree, name: string, labels: seq<seq<Pair>>, d: nat, x: Pair)
    requires TracedOne(t, name, labels) && d <= |labels|
    ensures TracedOne(t, name, AppendAt(labels, d, x))
  {
    if t.Node? {
      RecordedGrows(labels, Height(t), FirstLeafOf(t), d, x);
    }
  }

  /** An append keeps an entry the ledger recorded. */
  lemma RecordedGrows(labels: seq<seq<Pair>>, h: nat, leaf: string, d: nat, x: Pair)
    requires Recorded(labels, h, leaf) && d <= |labels|
    ensures Recorded(AppendAt(labels, d, x), h, leaf)
  {
    var j :| 0 <= j < |labels[h - 1]| && EntryKey(labels[h - 1][j].first) == Some(leaf);
    var labels' := AppendAt(labels, d, x);
    if d == |labels| {
      assert labels'[h - 1] == labels[h - 1];
    } else if d == h - 1 {
      assert labels'[h - 1] == labels[h - 1] + [x];
    } else {
      assert labels'[h - 1] == labels[h - 1];
    }
    assert labels'[h - 1][j] == labels[h - 1][j];
  }

  /** A traced merge: its lookups succeed, and after it (the entry at
      MergeLayer, the names merged and popped) the clusters stay traced. */
  lemma TracedStep(trees: seq<Tree>, names: seq<string>, labels: seq<seq<Pair>>, a: nat, c: nat)
    requires Traced(trees, names, labels) && a < |trees| && c < |trees|
    ensures LookupsSucceed(labels, names[a], names[c])
    ensures MergeLayer(names[a], names[c]) <= |labels|
    ensures Traced(MergedTrees(trees, a, c), Merged(names, a, c),
                   AppendAt(labels, MergeLayer(names[a], names[c]), MergeEntry(labels, names[a], names[c])))
  {
    var pre, post := names[a], names[c];
    assert TracedOne(trees[a], pre, labels) && TracedOne(trees[c], post, labels);
    var node := Node(trees[a], trees[c]);
    TracedNode(trees[a], trees[c], pre, post, labels);
    var d, x := MergeLayer(pre, post), MergeEntry(labels, pre, post);
    var labels' := AppendAt(labels, d, x);
    var trees', names' := trees[a := node], names[a := Bracket(pre, post)];
    forall k | 0 <= k < |trees'| ensures TracedOne(trees'[k], names'[k], labels') {
      if k != a {
        assert TracedOne(trees[k], names[k], labels);
        TracedOneGrows(trees[k], names[k], labels, d, x);
      }
    }
    TracedRemove(trees', names', labels', c);
  }

  /** The merge of two traced clusters: its lookups succeed, and the
      merged cluster is traced in the ledger with the merge's entry. */
  lemma TracedNode(ta: Tree, tc: Tree, pre: string, post: string, labels: seq<seq<Pair>>)
    requires EntriesKeyed(labels) && TracedOne(ta, pre, labels) && TracedOne(tc, post, labels)
    ensures LookupsSucceed(labels, pre, post) && MergeLayer(pre, post) <= |labels|
    ensures var labels' := AppendAt(labels, MergeLayer(pre, post), MergeEntry(labels, pre, post));
      EntriesKeyed(labels') && TracedOne(Node(ta, tc), Bracket(pre, post), labels')
  {
    var node := Node(ta, tc);
    assert LookupsSucceed(labels, pre, post) && MergeLayer(pre, post) == Height(node) - 1 <= |labels| &&
           EntryKey(MergeEntry(labels, pre, post).first) == Some(FirstLeafOf(node)) by {
      SideOfTree(ta, pre, labels);
      SideOfTree(tc, post, labels);
    }
    var d, x := MergeLayer(pre, post), MergeEntry(labels, pre, post);
    var labels' := AppendAt(labels, d, x);
    assert EntriesKeyed(labels') by {
      KeyedAppend(labels, d, x);
    }
    RecordedAfterAppend(labels, d, x, FirstLeafOf(node));
  }

  /** Appending an entry keyed by leaf to layer d records leaf at height d + 1. */
  lemma RecordedAfterAppend(labels: seq<seq<Pair>>, d: nat, x: Pair, leaf: string)
    requires d <= |labels| && EntryKey(x.first) == Some(leaf)
    ensures Recorded(AppendAt(labels, d, x), d + 1, leaf)
  {
    var labels' := AppendAt(labels, d, x);
    AppendAtAppendsOne(labels, d, x);
    assert labels'[d][|labels'[d]| - 1] == x;
  }

  /** The lookups of a traced merge succeed. */
  lemma TracedLookups(trees: seq<Tree>, names: seq<string>, labels: seq<seq<Pair>>, a: nat, c: nat)
    requires Traced(trees, names, labels) && a < |trees| && c < |trees|
    ensures LookupsSucceed(labels, names[a], names[c])
    ensures MergeLayer(names[a], names[c]) <= |labels|
  {
    assert TracedOne(trees[a], names[a], labels) && TracedOne(trees[c], names[c], labels);
    SideOfTree(trees[a], names[a], labels);
    SideOfTree(trees[c], names[c], labels);
    LookupsSucceedNeedsLayer(labels, names[a], names[c]);
  }

  /** Every merge of two active names has lookups that succeed. */
  ghost predicate LookupsAll(labels: seq<seq<Pair>>, names: seq<string>)
  {
    forall a, c | 0 <= a < |names| && 0 <= c < |names| :: LookupsSucceed(labels, names[a], names[c])
  }

  /** Traced names: every merge of two of them has lookups that succeed. */
  lemma TracedLookupsAll(trees: seq<Tree>, names: seq<string>, labels: seq<seq<Pair>>)
    requires Traced(trees, names, labels)
    ensures LookupsAll(labels, names)
  {
    forall a, c | 0 <= a < |names| && 0 <= c < |names|
      ensures LookupsSucceed(labels, names[a], names[c])
    {
      TracedLookups(trees, names, labels, a, c);
    }
  }

  /** TracedStep, for the names and ledger a merge leaves. */
  lemma TracedMerge(trees: seq<Tree>, names: seq<string>, labels: seq<seq<Pair>>, a: nat, c: nat,
                    names': seq<string>, labels': seq<seq<Pair>>)
    requires Traced(trees, names, labels) && a < |trees| && c < |trees|
    requires LookupsSucceed(labels, names[a], names[c]) && MergeLayer(names[a], names[c]) <= |labels|
    requires names' == Merged(names, a, c)
    requires labels' == AppendAt(labels, MergeLayer(names[a], names[c]), MergeEntry(labels, names[a], names[c]))
    ensures Traced(MergedTrees(trees, a, c), names', labels')
  {
    TracedStep(trees, names, labels, a, c);
  }

  /** Popping a name and its cluster keeps the rest traced. */
  lemma TracedRemove(trees: seq<Tree>, names: seq<string>, labels: seq<seq<Pair>>, c: nat)
    requires |trees| == |names| && EntriesKeyed(labels) && c < |trees|
    requires forall k | 0 <= k < |trees| :: TracedOne(trees[k], names[k], labels)
    ensures Traced(Remove(trees, c), Remove(names, c), labels)
  {
    var ts, ns := Remove(trees, c), Remove(names, c);
    forall k | 0 <= k < |ts| ensures TracedOne(ts[k], ns[k], labels) {
      if k >= c {
        assert TracedOne(trees[k + 1], names[k + 1], labels);
      } else {
        assert TracedOne(trees[k], names[k], labels);
      }
    }
  }

  /** After the first merge of the bare ids the clusters are traced. */
  lemma TracedStart(ids: seq<string>, row: nat, c: nat)
    requires forall k | 0 <= k < |ids| :: NoDelimiters(ids[k])
    requires row < |ids| && c < |ids|
    ensures Traced(MergedTrees(LeafTrees(ids), row, c), Merged(Prefixed(ids), row, c),
                   [[Pair("p" + ids[row], "p" + ids[c])]])
  {
    var ts, pids := LeafTrees(ids), Prefixed(ids);
    forall k | 0 <= k < |ids| ensures TracedOne(ts[k], pids[k], []) {
      assert pids[k] == ['p'] + ids[k];
    }
    assert Traced(ts, pids, []);
    TracedStep(ts, pids, [], row, c);
    assert NoBrackets(pids[row]) && NoBrackets(pids[c]) by {
      assert pids[row] == ['p'] + ids[row];
      assert pids[c] == ['p'] + ids[c];
    }
    assert MergeLayer(pids[row], pids[c]) == 0;
    assert MergeEntry([], pids[row], pids[c]) == Pair("p" + ids[row], "p" + ids[c]);
    assert AppendAt([], 0, Pair("p" + ids[row], "p" + ids[c])) == [[Pair("p" + ids[row], "p" + ids[c])]];
  }

  // ---------------------------------------------------------------------
  // Leaves

  /** The active names after a merge: the pair's name at row, entry c
      dropped. */
  function Merged(s: seq<string>, row: nat, c: nat): (t: seq<string>)
    requires row < |s| && c < |s|
    ensures |t| == |s| - 1
  {
    Remove(s[row := Bracket(s[row], s[c])], c)
  }

  /** The 'p'-prefixed ids (`add_p`). */
  function Prefixed(ids: seq<string>): (pids: seq<string>)
    ensures |pids| == |ids| && forall k | 0 <= k < |ids| :: pids[k] == "p" + ids[k]
  {
    seq(|ids|, k requires 0 <= k < |ids| => "p" + ids[k])
  }

  /** The pieces f(x) of the elements x of xs, laid end to end. */
  function FlatMap<T, U>(f: T -> seq<U>, xs: seq<T>): seq<U>
  {
    if |xs| == 0 then [] else FlatMap(f, xs[..|xs| - 1]) + f(xs[|xs| - 1])
  }

  lemma FlatMapSnoc<T, U>(f: T -> seq<U>, p: seq<T>, x: T)
    ensures FlatMap(f, p + [x]) == FlatMap(f, p) + f(x)
  {
    assert (p + [x])[..|p|] == p;
  }

  lemma {:induction false} FlatMapConcat<T, U>(f: T -> seq<U>, a: seq<T>, b: seq<T>)
    ensures FlatMap(f, a + b) == FlatMap(f, a) + FlatMap(f, b)
  {
    if |b| == 0 {
      assert a + b == a;
    } else {
      var b', last := b[..|b| - 1], b[|b| - 1];
      assert b == b' + [last];
      assert a + b == (a + b') + [last];
      FlatMapConcat(f, a, b');
      FlatMapSnoc(f, a + b', last);
      FlatMapSnoc(f, b', last);
    }
  }

  /** The leaves of the active clusters, name after name. */
  function FlatLeaves(names: seq<string>): seq<string>
  {
    FlatMap(Leaves, names)
  }

  lemma FlatLeavesConcat(a: seq<string>, b: seq<string>)
    ensures FlatLeaves(a + b) == FlatLeaves(a) + FlatLeaves(b)
  {
    FlatMapConcat(Leaves, a, b);
  }

  lemma FlatLeavesOfOne(x: string)
    ensures FlatLeaves([x]) == Leaves(x)
  {
    FlatMapSnoc(Leaves, [], x);
    assert [] + [x] == [x];
  }

  /** A list of bare ids is its own list of leaves. */
  lemma {:induction false} FlatLeavesOfPlain(names: seq<string>)
    requires forall k | 0 <= k < |names| :: NoDelimiters(names[k])
    ensures FlatLeaves(names) == names
  {
    if |names| > 0 {
      var init, last := names[..|names| - 1], names[|names| - 1];
      FlatLeavesOfPlain(init);
      LeavesOfLeaf(last);
      assert names == init + [last];
      FlatMapSnoc(Leaves, init, last);
    }
  }

  /** Putting x at row, where f(x) is f(s[row]) followed by f(s[c]), and
      dropping c (row < c) keeps the multiset of the pieces f gives. */
  lemma MergeKeepsFlat<T>(f: string -> seq<T>, s: seq<string>, row: nat, c: nat, x: string)
    requires row < c < |s| && f(x) == f(s[row]) + f(s[c])
    ensures multiset(FlatMap(f, Remove(s[row := x], c))) == multiset(FlatMap(f, s))
  {
    var a, y, b, w, z := s[..row], s[row], s[row + 1..c], s[c], s[c + 1..];
    ReplacedPieces(s, row, c, x);
    FlatMapSnoc(f, [], x);
    FlatMapSnoc(f, [], y);
    FlatMapSnoc(f, [], w);
    assert [] + [x] == [x] && [] + [y] == [y] && [] + [w] == [w];
    FlatMapConcat(f, a + [y] + b + [w], z);
    FlatMapConcat(f, a + [y] + b, [w]);
    FlatMapConcat(f, a + [y], b);
    FlatMapConcat(f, a, [y]);
    FlatMapConcat(f, a + [x] + b, z);
    FlatMapConcat(f, a + [x], b);
    FlatMapConcat(f, a, [x]);
  }

  /** The list cut at row and c, before and after x replaces s[row] and
      c is dropped. */
  lemma ReplacedPieces(s: seq<string>, row: nat, c: nat, x: string)
    requires row < c < |s|
    ensures s == s[..row] + [s[row]] + s[row + 1..c] + [s[c]] + s[c + 1..]
    ensures Remove(s[row := x], c) == s[..row] + [x] + s[row + 1..c] + s[c + 1..]
  {
    var a, y, b, w, z := s[..row], s[row], s[row + 1..c], s[c], s[c + 1..];
    var u := s[row := x];
    assert u[..c] == a + [x] + b;
    assert u[c + 1..] == z;
    assert s[..c] == a + [y] + b;
    assert s[c..] == [w] + z;
    assert s == s[..c] + s[c..];
  }

  /** Merging the names at row and c (row < c) into one at row and
      dropping c keeps the multiset of leaves. */
  lemma MergeKeepsLeaves(s: seq<string>, row: nat, c: nat)
    requires row < c < |s|
    ensures multiset(FlatLeaves(Merged(s, row, c))) == multiset(FlatLeaves(s))
  {
    LeavesOfBracket(s[row], s[c]);
    MergeKeepsFlat(Leaves, s, row, c, Bracket(s[row], s[c]));
  }

  /** The first merge of bare ids keeps their prefixed forms as the leaves. */
  lemma FirstLeaves(ids: seq<string>, row: nat, c: nat)
    requires row < c < |ids|
    requires forall k | 0 <= k < |ids| :: NoDelimiters(ids[k])
    ensures multiset(FlatLeaves(Merged(Prefixed(ids), row, c))) == multiset(Prefixed(ids))
  {
    var pids := Prefixed(ids);
    forall k | 0 <= k < |pids| ensures NoDelimiters(pids[k]) {
      assert pids[k] == ['p'] + ids[k];
    }
    FlatLeavesOfPlain(pids);
    MergeKeepsLeaves(pids, row, c);
  }

  /** In a list without repeats every element occurs once. */
  lemma {:induction false} DistinctOccursOnce(s: seq<string>, k: nat)
    requires k < |s| && forall i, j | 0 <= i < j < |s| :: s[i] != s[j]
    ensures multiset(s)[s[k]] == 1
  {
    var init, last := s[..|s| - 1], s[|s| - 1];
    assert s == init + [last];
    if k == |s| - 1 {
      assert last !in init;
    } else {
      DistinctOccursOnce(init, k);
      assert init[k] == s[k] && s[k] != last;
    }
  }

  // ---------------------------------------------------------------------
  // get_tree_file

  /** What UPGMA keeps of the matrix: an n x n array with the sentinel
      below the diagonal and every cell on or above it in [0, 1]. */
  ghost predicate UpgmaShape(a: array2<real>, n: nat)
    reads a
  {
    a.Length0 == n && a.Length1 == n && IsSquare(Grid(a), n) &&
    LowerIsSentinel(Grid(a), n) && UpperInUnitRange(Grid(a), n)
  }

  /** The pair and the lengths the strategy's matrix update selects in
      the n x n matrix m: UPGMA takes the first minimum and half its value
      as min_dis; NJ takes the first minimum of the Q matrix and the
      clamped NJ branch lengths. */
  ghost predicate StepValues(kind: Strategy, m: Mat, n: nat, row: nat, col: nat, minDis: real, d1: real, d2: real)
  {
    IsSquare(m, n) && row < n && col < n &&
    (kind == Upgma ==> IsFirstMin(m, n, row, col) && minDis == m[row][col] / 2.0) &&
    (kind == Nj && n >= 2 ==> IsFirstMin(QMatrix(m, n, RTotals(m, n)), n, row, col)) &&
    (kind == Nj ==> d1 == Clamp(NjLengths(m, n, RTotals(m, n), row, col).0) &&
                    d2 == Clamp(NjLengths(m, n, RTotals(m, n), row, col).1))
  }

  /** The matrix update of one step with the chosen strategy
      (`update_mat_upgma` or `update_mat_nj`).  Under UPGMA the selected
      cell is on or above the diagonal and the shape is kept. */
  method UpdateStep(kind: Strategy, mat: array2<real>, n: nat)
    returns (matNew: array2<real>, row: nat, col: nat, minDis: real, d1: real, d2: real)
    requires n >= 1 && mat.Length0 == n && mat.Length1 == n
    requires kind == Upgma ==> UpgmaShape(mat, n)
    ensures fresh(matNew) && matNew.Length0 == n - 1 && matNew.Length1 == n - 1
    ensures row < n && col < n
    ensures Grid(matNew) == Reduce(Grid(mat), n, row, col, if kind == Upgma then 0.0 else Grid(mat)[row][col])
    ensures StepValues(kind, Grid(mat), n, row, col, minDis, d1, d2)
    ensures kind == Upgma ==> row <= col && UpgmaShape(matNew, n - 1)
  {
    minDis, d1, d2 := 0.0, 0.0, 0.0;
    if kind == Upgma {
      matNew, row, col, minDis := UpdateMatUpgma(mat, n);
      UnitRangeBelowSentinel(Grid(mat), n);
      FirstMinIsUpper(Grid(mat), n, row, col);
      ReduceLowerIsSentinel(Grid(mat), n, row, col, 0.0);
      ReduceKeepsUnitRange(Grid(mat), n, row, col);
    } else {
      matNew, row, col, d1, d2 := UpdateMatNj(mat, n);
    }
  }

  /** The ids as align2mat orders them are bare, and so are their
      'p'-prefixed forms. */
  lemma IdsArePlain(ids1: seq<string>, ids2: seq<string>, ids: seq<string>)
    requires forall k | 0 <= k < |ids1| :: NoDelimiters(ids1[k])
    requires forall k | 0 <= k < |ids2| :: NoDelimiters(ids2[k])
    requires |Unique(ids2)| > 0 && ids == Unique(ids1) + [Unique(ids2)[|Unique(ids2)| - 1]]
    ensures forall k | 0 <= k < |ids| :: NoDelimiters(ids[k])
  {
    forall k | 0 <= k < |ids|
      ensures NoDelimiters(ids[k])
    {
      if k < |ids| - 1 {
        assert ids[k] in Unique(ids1);
        assert ids[k] in ids1;
      } else {
        assert ids[k] in Unique(ids2);
        assert ids[k] in ids2;
      }
    }
  }

  /** The matrix align2mat builds: the m x m upper triangle of the
      combined scores, m the number of distinct ids in the first column. */
  ghost function FirstMatrix(ids1: seq<string>, tm1: seq<real>, tm2: seq<real>, tmScore: string): Mat
    requires |tm1| == |tm2| > 0
    requires 2 * |tm1| >= |Unique(ids1)| * (|Unique(ids1)| + 1)
    requires MinOf(CombinedScores(tm1, tm2, ParseScoreMode(tmScore))) < MaxOf(CombinedScores(tm1, tm2, ParseScoreMode(tmScore)))
  {
    Triangle(CombinedScores(tm1, tm2, ParseScoreMode(tmScore)), |Unique(ids1)|)
  }

  /** The distance matrix of the ids (`align2mat`) and its first update. */
  method FirstUpdate(ids1: seq<string>, ids2: seq<string>, tm1: seq<real>, tm2: seq<real>,
                     kind: Strategy, tmScore: string)
    returns (matNew: array2<real>, ids: seq<string>, row: nat, col: nat, minDis: real, d1: real, d2: real)
    requires |ids1| == |ids2| == |tm1| == |tm2| > 0
    requires 2 * |tm1| >= |Unique(ids1)| * (|Unique(ids1)| + 1)
    requires MinOf(CombinedScores(tm1, tm2, ParseScoreMode(tmScore))) < MaxOf(CombinedScores(tm1, tm2, ParseScoreMode(tmScore)))
    ensures |Unique(ids2)| > 0 && ids == Unique(ids1) + [Unique(ids2)[|Unique(ids2)| - 1]]
    ensures |ids| == |Unique(ids1)| + 1
    ensures fresh(matNew) && matNew.Length0 == |ids| - 2 && matNew.Length1 == |ids| - 2
    ensures row < |ids| - 1 && col < |ids| - 1
    ensures StepValues(kind, FirstMatrix(ids1, tm1, tm2, tmScore), |Unique(ids1)|,
                       row, col, minDis, d1, d2)
    ensures Grid(matNew) == Reduce(FirstMatrix(ids1, tm1, tm2, tmScore), |Unique(ids1)|, row, col,
                                   if kind == Upgma then 0.0 else FirstMatrix(ids1, tm1, tm2, tmScore)[row][col])
    ensures kind == Upgma ==> row <= col && UpgmaShape(matNew, |ids| - 2)
  {
    var mat;
    mat, ids := Align2Mat(ids1, ids2, tm1, tm2, tmScore);
    var m := |ids| - 1;
    TriangleShape(CombinedScores(tm1, tm2, ParseScoreMode(tmScore)), m);
    matNew, row, col, minDis, d1, d2 := UpdateStep(kind, mat, m);
  }

  /** The first merge (get_clusters.py): the matrix, its first update,
      and the ledger started with the selected pair. */
  method FirstMerge(ids1: seq<string>, ids2: seq<string>, tm1: seq<real>, tm2: seq<real>,
                    kind: Strategy, tmScore: string, numText: real -> string)
    returns (matNew: array2<real>, book: TreeBook, ids: seq<string>, row: nat, col: nat,
             minDis: real, d1: real, d2: real)
    requires |ids1| == |ids2| == |tm1| == |tm2| > 0
    requires 2 * |tm1| >= |Unique(ids1)| * (|Unique(ids1)| + 1)
    requires MinOf(CombinedScores(tm1, tm2, ParseScoreMode(tmScore))) < MaxOf(CombinedScores(tm1, tm2, ParseScoreMode(tmScore)))
    ensures |Unique(ids2)| > 0 && ids == Unique(ids1) + [Unique(ids2)[|Unique(ids2)| - 1]]
    ensures |ids| == |Unique(ids1)| + 1
    ensures fresh(book) && fresh(matNew)
    ensures book.Valid() && book.kind == kind && book.numText == numText
    ensures matNew.Length0 == |ids| - 2 && matNew.Length1 == |ids| - 2
    ensures row < |ids| - 1 && col < |ids| - 1
    ensures StepValues(kind, FirstMatrix(ids1, tm1, tm2, tmScore), |Unique(ids1)|,
                       row, col, minDis, d1, d2)
    ensures Grid(matNew) == Reduce(FirstMatrix(ids1, tm1, tm2, tmScore), |Unique(ids1)|, row, col,
                                   if kind == Upgma then 0.0 else FirstMatrix(ids1, tm1, tm2, tmScore)[row][col])
    ensures book.Contents() == FirstLists(kind, numText, ids, Step(row, col, minDis, d1, d2))
    ensures kind == Upgma ==> row <= col && UpgmaShape(matNew, |ids| - 2)
  {
    matNew, ids, row, col, minDis, d1, d2 := FirstUpdate(ids1, ids2, tm1, tm2, kind, tmScore);
    book := StartBook(kind, numText, ids, row, col, minDis, d1, d2);
  }

  /** The ledger after the first merge, under the 'p'-prefixed ids: the
      pair's entry at layer 0 with min_dis (UPGMA) or d1 and d2 (NJ). */
  method StartBook(kind: Strategy, numText: real -> string, ids: seq<string>,
                   row: nat, col: nat, minDis: real, d1: real, d2: real)
    returns (book: TreeBook)
    requires row < |ids| && col + 1 < |ids|
    ensures fresh(book)
    ensures book.Valid() && book.kind == kind && book.numText == numText
    ensures |book.nameAll| == |ids| - 1 && TotalSize(book.labels) == 1
    ensures book.Contents() == FirstLists(kind, numText, ids, Step(row, col, minDis, d1, d2))
  {
    var pids := AddP(ids);
    assert pids == Prefixed(ids);
    if kind == Upgma {
      book := new TreeBook.FirstUpgma(numText, pids, ids, row, col, minDis);
    } else {
      book := new TreeBook.FirstNj(numText, pids, ids, row, col, d1, d2);
    }
    assert TotalSize(book.labels) == 1 by {
      assert book.labels[..0] == [];
    }
  }

  /** The merge function's update of the ledger, then the pop of entry
      col+1, for a pair whose lookups succeed. */
  method MergeAndPop(book: TreeBook, row: nat, col: nat, minDis: real, d1: real, d2: real)
    requires book.Valid() && row < |book.nameAll| && col + 1 < |book.nameAll|
    requires LookupsSucceed(book.labels, book.nameAll[row], book.nameAll[col + 1])
    modifies book
    ensures book.Valid()
    ensures book.Contents() == AfterMerge(book.kind, book.numText, old(book.Contents()), row, col, minDis, d1, d2)
    ensures book.nameAll == Merged(old(book.nameAll), row, col + 1)
    ensures book.labels == AppendAt(old(book.labels), MergeLayer(old(book.nameAll)[row], old(book.nameAll)[col + 1]),
                                    MergeEntry(old(book.labels), old(book.nameAll)[row], old(book.nameAll)[col + 1]))
    ensures TotalSize(book.labels) == TotalSize(old(book.labels)) + 1
  {
    var ok := Dispatch(book, row, col, minDis, d1, d2);
    book.PopBoth(col + 1);
  }

  /** One pass of the loop (get_clusters.py): update the size x size
      matrix (UpdateStep), then merge the selected pair and pop entry
      col+1 (MergeAndPop).  When every lookup among the names succeeds,
      which holds for traced names (TracedLookupsAll), the program does
      not raise here: the pair the update selects is merged, the lists
      become AfterMerge of the old ones, and the new matrix is the
      reduction of the old one. */
  method LoopStep(book: TreeBook, mat: array2<real>, size: nat)
    returns (matNew: array2<real>, row: nat, col: nat, minDis: real, d1: real, d2: real)
    requires book.Valid() && size >= 1 && |book.nameAll| == size + 1
    requires mat.Length0 == size && mat.Length1 == size
    requires book.kind == Upgma ==> UpgmaShape(mat, size)
    requires LookupsAll(book.labels, book.nameAll)
    modifies book
    ensures fresh(matNew) && matNew.Length0 == size - 1 && matNew.Length1 == size - 1
    ensures row < size && col < size
    ensures StepValues(book.kind, Grid(mat), size, row, col, minDis, d1, d2)
    ensures Grid(matNew) == Reduce(Grid(mat), size, row, col, if book.kind == Upgma then 0.0 else Grid(mat)[row][col])
    ensures book.Valid()
    ensures LookupsSucceed(old(book.labels), old(book.nameAll)[row], old(book.nameAll)[col + 1])
    ensures MergeLayer(old(book.nameAll)[row], old(book.nameAll)[col + 1]) <= |old(book.labels)|
    ensures book.Contents() == AfterMerge(book.kind, book.numText, old(book.Contents()), row, col, minDis, d1, d2)
    ensures book.nameAll == Merged(old(book.nameAll), row, col + 1)
    ensures book.labels == AppendAt(old(book.labels), MergeLayer(old(book.nameAll)[row], old(book.nameAll)[col + 1]),
                                    MergeEntry(old(book.labels), old(book.nameAll)[row], old(book.nameAll)[col + 1]))
    ensures TotalSize(book.labels) == TotalSize(old(book.labels)) + 1
    ensures book.kind == Upgma ==> row <= col && UpgmaShape(matNew, size - 1)
  {
    matNew, row, col, minDis, d1, d2 := UpdateStep(book.kind, mat, size);
    assert LookupsSucceed(book.labels, book.nameAll[row], book.nameAll[col + 1]);
    LookupsSucceedNeedsLayer(book.labels, book.nameAll[row], book.nameAll[col + 1]);
    MergeAndPop(book, row, col, minDis, d1, d2);
  }

  /** What one pass of the loop selects: the pair (row, col) and the
      lengths the matrix update returns. */
  datatype Step = Step(row: nat, col: nat, minDis: real, d1: real, d2: real)

  /** The record of a run of the loop: the matrix before each pass and
      after the last, the lists likewise, and the step of each pass. */
  datatype Trace = Trace(mats: seq<Mat>, lists: seq<Lists>, steps: seq<Step>)

  /** What one pass sees: the matrix and lists before it, the matrix and
      lists after it, and its step. */
  datatype Window = Window(m: Mat, m': Mat, l: Lists, l': Lists, s: Step)

  /** The window of pass i of a record. */
  function WindowAt(tr: Trace, i: nat): (w: Window)
    requires i < |tr.steps| && |tr.mats| == |tr.lists| == |tr.steps| + 1
    ensures w.m == tr.mats[i] && w.m' == tr.mats[i + 1] && w.l == tr.lists[i] && w.l' == tr.lists[i + 1]
    ensures w.s == tr.steps[i]
  {
    Window(tr.mats[i], tr.mats[i + 1], tr.lists[i], tr.lists[i + 1], tr.steps[i])
  }

  /** The matrix side of one pass over an n by n matrix: the step
      selects what StepValues says of m, and m' is m reduced at the
      selected pair. */
  ghost predicate MatrixStep(kind: Strategy, n: nat, w: Window)
  {
    StepValues(kind, w.m, n, w.s.row, w.s.col, w.s.minDis, w.s.d1, w.s.d2) &&
    w.m' == Reduce(w.m, n, w.s.row, w.s.col, if kind == Upgma then 0.0 else w.m[w.s.row][w.s.col])
  }

  /** The list side of one pass: the lookups of the selected pair succeed
      and the lists l' are l after the merge of that pair. */
  ghost predicate ListStep(kind: Strategy, numText: real -> string, w: Window)
  {
    var l, s := w.l, w.s;
    Shaped(kind, l.names, l.newicks, l.labels, l.ds1, l.ds2) &&
    s.row < |l.names| && s.col + 1 < |l.names| &&
    LookupsSucceed(l.labels, l.names[s.row], l.names[s.col + 1]) &&
    w.l' == AfterMerge(kind, numText, l, s.row, s.col, s.minDis, s.d1, s.d2)
  }

  /** One pass of the loop over an n by n matrix. */
  ghost predicate Transition(kind: Strategy, numText: real -> string, n: nat, w: Window)
  {
    MatrixStep(kind, n, w) && ListStep(kind, numText, w)
  }

  /** Pass i of a record is a pass of the loop over a matrix of size n0 - i. */
  ghost predicate StepOk(kind: Strategy, numText: real -> string, tr: Trace, n0: nat, i: nat)
    requires i < |tr.steps| && |tr.mats| == |tr.lists| == |tr.steps| + 1
  {
    i < n0 && Transition(kind, numText, n0 - i, WindowAt(tr, i))
  }

  /** Every pass of the record is a pass of the loop. */
  ghost predicate Run(kind: Strategy, numText: real -> string, tr: Trace, n0: nat)
  {
    |tr.mats| == |tr.lists| == |tr.steps| + 1 &&
    forall i | 0 <= i < |tr.steps| :: StepOk(kind, numText, tr, n0, i)
  }

  /** Pass i of a run, read off the record. */
  lemma RunStep(kind: Strategy, numText: real -> string, tr: Trace, n0: nat, i: nat)
    requires Run(kind, numText, tr, n0) && i < |tr.steps|
    ensures i < n0
    ensures Transition(kind, numText, n0 - i, WindowAt(tr, i))
  {
    assert StepOk(kind, numText, tr, n0, i);
  }

  /** The list side of pass i of a run. */
  lemma RunListStep(kind: Strategy, numText: real -> string, tr: Trace, n0: nat, i: nat)
    requires Run(kind, numText, tr, n0) && i < |tr.steps|
    ensures ListStep(kind, numText, WindowAt(tr, i))
  {
    RunStep(kind, numText, tr, n0, i);
  }

  /** A run extended by one more pass is a run. */
  lemma RunSnoc(kind: Strategy, numText: real -> string, tr: Trace, n0: nat, m: Mat, l: Lists, s: Step)
    requires Run(kind, numText, tr, n0)
    requires StepOk(kind, numText, Trace(tr.mats + [m], tr.lists + [l], tr.steps + [s]), n0, |tr.steps|)
    ensures Run(kind, numText, Trace(tr.mats + [m], tr.lists + [l], tr.steps + [s]), n0)
  {
    var tr' := Trace(tr.mats + [m], tr.lists + [l], tr.steps + [s]);
    forall i | 0 <= i < |tr'.steps| ensures StepOk(kind, numText, tr', n0, i) {
      if i < |tr.steps| {
        StepOkSnoc(kind, numText, tr, n0, m, l, s, i);
        assert StepOk(kind, numText, tr, n0, i);
      }
    }
  }

  /** The passes already recorded read the same in the extended record. */
  lemma StepOkSnoc(kind: Strategy, numText: real -> string, tr: Trace, n0: nat, m: Mat, l: Lists, s: Step, i: nat)
    requires |tr.mats| == |tr.lists| == |tr.steps| + 1 && i < |tr.steps|
    ensures StepOk(kind, numText, Trace(tr.mats + [m], tr.lists + [l], tr.steps + [s]), n0, i) == StepOk(kind, numText, tr, n0, i)
  {
    var tr' := Trace(tr.mats + [m], tr.lists + [l], tr.steps + [s]);
    assert WindowAt(tr', i) == WindowAt(tr, i);
  }

  /** The pairs the steps merge, as (row, col + 1). */
  function Pairs(steps: seq<Step>): (ms: seq<(nat, nat)>)
    ensures |ms| == |steps| && forall i | 0 <= i < |steps| :: ms[i] == (steps[i].row, steps[i].col + 1)
  {
    seq(|steps|, i requires 0 <= i < |steps| => (steps[i].row, steps[i].col + 1))
  }

  /** The names after a series of merges, each a pair (row, c) as
      Merged takes it; a pair out of range leaves the names as they are. */
  function ApplyMerges(names: seq<string>, ms: seq<(nat, nat)>): (r: seq<string>)
  {
    if |ms| == 0 then names
    else
      var prev := ApplyMerges(names, ms[..|ms| - 1]);
      var m := ms[|ms| - 1];
      if m.0 < |prev| && m.1 < |prev| then Merged(prev, m.0, m.1) else prev
  }

  /** Every merge keeps the merged pair in ascending order. */
  ghost predicate Ascending(ms: seq<(nat, nat)>)
  {
    forall i | 0 <= i < |ms| :: ms[i].0 < ms[i].1
  }

  /** Merges in ascending order keep the leaves. */
  lemma {:induction false} ApplyMergesKeepsLeaves(names: seq<string>, ms: seq<(nat, nat)>)
    requires Ascending(ms)
    ensures multiset(FlatLeaves(ApplyMerges(names, ms))) == multiset(FlatLeaves(names))
  {
    if |ms| > 0 {
      var init, m := ms[..|ms| - 1], ms[|ms| - 1];
      assert Ascending(init) by {
        forall i | 0 <= i < |init| ensures init[i].0 < init[i].1 {
          assert init[i] == ms[i];
        }
      }
      ApplyMergesKeepsLeaves(names, init);
      var prev := ApplyMerges(names, init);
      if m.0 < |prev| && m.1 < |prev| {
        MergeKeepsLeaves(prev, m.0, m.1);
      }
    }
  }

  /** One merge more, as ApplyMerges reads it. */
  lemma ApplyMergesSnoc(names: seq<string>, ms: seq<(nat, nat)>, m: (nat, nat))
    requires m.0 < |ApplyMerges(names, ms)| && m.1 < |ApplyMerges(names, ms)|
    ensures ApplyMerges(names, ms + [m]) == Merged(ApplyMerges(names, ms), m.0, m.1)
  {
    assert (ms + [m])[..|ms|] == ms;
  }

  /** The names after one more recorded pass. */
  lemma NamesAfterPass(names0: seq<string>, steps: seq<Step>, s: Step, before: seq<string>, after: seq<string>)
    requires before == ApplyMerges(names0, Pairs(steps)) && s.row < |before| && s.col + 1 < |before|
    requires after == Merged(before, s.row, s.col + 1)
    ensures after == ApplyMerges(names0, Pairs(steps + [s]))
  {
    PairsSnoc(steps, s);
    ApplyMergesSnoc(names0, Pairs(steps), (s.row, s.col + 1));
  }

  /** The loop of get_tree_file: one pass per matrix size, down to the
      single cluster.  The trace records each pass: the pair the matrix
      update selects, the matrix it leaves, and the lists after the
      merge; its last lists are the book's. */
  method MergeRest(book: TreeBook, mat: array2<real>, ghost trees: seq<Tree>, ghost n0: nat) returns (ghost tr: Trace)
    requires book.Valid() && |book.nameAll| == n0 + 1
    requires mat.Length0 == |book.nameAll| - 1 && mat.Length1 == |book.nameAll| - 1
    requires book.kind == Upgma ==> UpgmaShape(mat, |book.nameAll| - 1)
    requires Traced(trees, book.nameAll, book.labels)
    modifies book
    ensures book.Valid()
    ensures |book.nameAll| == 1
    ensures Run(book.kind, book.numText, tr, n0) && |tr.steps| == n0
    ensures tr.mats[0] == old(Grid(mat)) && tr.lists[0] == old(book.Contents())
    ensures book.Contents() == tr.lists[|tr.steps|]
    ensures TotalSize(book.labels) == TotalSize(tr.lists[0].labels) + |tr.lists[0].names| - 1
    ensures book.kind == Upgma ==> Ascending(Pairs(tr.steps))
    ensures book.nameAll == ApplyMerges(tr.lists[0].names, Pairs(tr.steps))
  {
    var matNew := mat;
    ghost var ts := trees;
    ghost var total: int := TotalSize(book.labels) + |book.nameAll| - 1;
    tr := Trace([Grid(mat)], [book.Contents()], []);
    // the len_mat passes, counted by the size of the matrix left
    var size: nat := |book.nameAll| - 1;
    while size > 0
      invariant Pending(book, matNew, size, ts, old(book.nameAll), total, tr, n0)
      invariant tr.mats[0] == old(Grid(mat)) && tr.lists[0] == old(book.Contents())
      decreases size
    {
      matNew, ts, tr := Pass(book, matNew, size, ts, old(book.nameAll), total, tr, n0);
      size := size - 1;
    }
  }

  /** What holds before each pass of the loop: a size x size matrix
      (in UPGMA's shape under UPGMA) and size+1 names, which are the
      first names after the recorded merges and are traced clusters;
      `total` entries once the size passes left are done; and the
      record of the passes so far, ending in this matrix and these lists. */
  ghost predicate Pending(book: TreeBook, mat: array2<real>, size: nat, ts: seq<Tree>,
                          names0: seq<string>, total: int, tr: Trace, n0: nat)
    reads book, mat
  {
    book.Valid() && mat.Length0 == size && mat.Length1 == size && |book.nameAll| == size + 1 &&
    TotalSize(book.labels) + size == total &&
    (book.kind == Upgma ==> Ascending(Pairs(tr.steps)) && UpgmaShape(mat, size)) &&
    book.nameAll == ApplyMerges(names0, Pairs(tr.steps)) && Traced(ts, book.nameAll, book.labels) &&
    Run(book.kind, book.numText, tr, n0) && |tr.steps| + size == n0 &&
    tr.mats[|tr.steps|] == Grid(mat) && tr.lists[|tr.steps|] == book.Contents()
  }

  /** One pass of the loop, with the pass recorded in the trace and the
      merge done on the ghost clusters. */
  method Pass(book: TreeBook, mat: array2<real>, size: nat, ghost ts: seq<Tree>,
              ghost names0: seq<string>, ghost total: int, ghost tr: Trace, ghost n0: nat)
    returns (matNew: array2<real>, ghost ts': seq<Tree>, ghost tr': Trace)
    requires size >= 1 && Pending(book, mat, size, ts, names0, total, tr, n0)
    modifies book
    ensures fresh(matNew) && Pending(book, matNew, size - 1, ts', names0, total, tr', n0)
    ensures tr'.mats[0] == tr.mats[0] && tr'.lists[0] == tr.lists[0]
  {
    ghost var l := book.Contents();
    TracedLookupsAll(ts, book.nameAll, book.labels);
    var row, col, minDis, d1, d2;
    matNew, row, col, minDis, d1, d2 := LoopStep(book, mat, size);
    ghost var w := Window(tr.mats[|tr.steps|], Grid(matNew), l, book.Contents(), Step(row, col, minDis, d1, d2));
    assert Transition(book.kind, book.numText, size, w);
    ts' := TracedPass(book.kind, book.numText, ts, w);
    tr' := RecordPass(book.kind, book.numText, tr, n0, names0, size, w);
  }

  /** A pass merges the ghost clusters of the selected pair, which stay
      traced. */
  lemma TracedPass(kind: Strategy, numText: real -> string, ts: seq<Tree>, w: Window)
    returns (ts': seq<Tree>)
    requires ListStep(kind, numText, w) && Traced(ts, w.l.names, w.l.labels)
    ensures w.s.row < |ts| && w.s.col + 1 < |ts| && ts' == MergedTrees(ts, w.s.row, w.s.col + 1)
    ensures Traced(ts', w.l'.names, w.l'.labels)
  {
    ListStepLists(kind, numText, w);
    TracedStep(ts, w.l.names, w.l.labels, w.s.row, w.s.col + 1);
    ts' := MergedTrees(ts, w.s.row, w.s.col + 1);
  }

  /** The record of a run, extended by a pass of the loop over a matrix
      of the given size. */
  lemma RecordPass(kind: Strategy, numText: real -> string, tr: Trace, n0: nat, names0: seq<string>,
                   size: nat, w: Window)
    returns (tr': Trace)
    requires Run(kind, numText, tr, n0) && |tr.steps| + size == n0 && size >= 1
    requires w.m == tr.mats[|tr.steps|] && w.l == tr.lists[|tr.steps|] && Transition(kind, numText, size, w)
    requires w.l.names == ApplyMerges(names0, Pairs(tr.steps))
    requires kind == Upgma ==> Ascending(Pairs(tr.steps)) && w.s.row <= w.s.col
    ensures tr' == Trace(tr.mats + [w.m'], tr.lists + [w.l'], tr.steps + [w.s])
    ensures Run(kind, numText, tr', n0) && w.l'.names == ApplyMerges(names0, Pairs(tr'.steps))
    ensures kind == Upgma ==> Ascending(Pairs(tr'.steps))
  {
    var s := w.s;
    tr' := Trace(tr.mats + [w.m'], tr.lists + [w.l'], tr.steps + [s]);
    assert Run(kind, numText, tr', n0) by {
      StepOkLast(kind, numText, tr, n0, size, w);
      RunSnoc(kind, numText, tr, n0, w.m', w.l', s);
    }
    assert w.l'.names == ApplyMerges(names0, Pairs(tr'.steps)) by {
      ListStepLists(kind, numText, w);
      NamesAfterPass(names0, tr.steps, s, w.l.names, w.l'.names);
    }
    assert kind == Upgma ==> Ascending(Pairs(tr'.steps)) by {
      if kind == Upgma {
        PairsSnoc(tr.steps, s);
        AscendingSnoc(Pairs(tr.steps), (s.row, s.col + 1));
      }
    }
  }

  /** After a pass, the names are the names before it merged at the
      selected pair, and the label ledger has the merge's entry appended. */
  lemma ListStepLists(kind: Strategy, numText: real -> string, w: Window)
    requires ListStep(kind, numText, w)
    ensures w.l'.names == Merged(w.l.names, w.s.row, w.s.col + 1)
    ensures w.s.row < |w.l.names| && w.s.col + 1 < |w.l.names| &&
            LookupsSucceed(w.l.labels, w.l.names[w.s.row], w.l.names[w.s.col + 1]) &&
            w.l'.labels == AppendAt(w.l.labels, MergeLayer(w.l.names[w.s.row], w.l.names[w.s.col + 1]),
                                    MergeEntry(w.l.labels, w.l.names[w.s.row], w.l.names[w.s.col + 1]))
  {
    assert w.l' == AfterMerge(kind, numText, w.l, w.s.row, w.s.col, w.s.minDis, w.s.d1, w.s.d2);
  }

  /** The pairs of one more step. */
  lemma PairsSnoc(steps: seq<Step>, s: Step)
    ensures Pairs(steps + [s]) == Pairs(steps) + [(s.row, s.col + 1)]
  {
    var a, b := Pairs(steps + [s]), Pairs(steps) + [(s.row, s.col + 1)];
    forall i | 0 <= i < |a| ensures a[i] == b[i] {
      if i < |steps| {
        assert (steps + [s])[i] == steps[i];
      }
    }
  }

  /** The pass appended to a record, read back as its last step. */
  lemma StepOkLast(kind: Strategy, numText: real -> string, tr: Trace, n0: nat, n: nat, w: Window)
    requires |tr.mats| == |tr.lists| == |tr.steps| + 1 && |tr.steps| < n0 && n == n0 - |tr.steps|
    requires w.m == tr.mats[|tr.steps|] && w.l == tr.lists[|tr.steps|] && Transition(kind, numText, n, w)
    ensures StepOk(kind, numText, Trace(tr.mats + [w.m'], tr.lists + [w.l'], tr.steps + [w.s]), n0, |tr.steps|)
  {
    var tr' := Trace(tr.mats + [w.m'], tr.lists + [w.l'], tr.steps + [w.s]);
    assert WindowAt(tr', |tr.steps|) == w;
  }

  /** A merge in ascending order after merges in ascending order. */
  lemma AscendingSnoc(ms: seq<(nat, nat)>, m: (nat, nat))
    requires Ascending(ms) && m.0 < m.1
    ensures Ascending(ms + [m])
  {
    forall i | 0 <= i < |ms| + 1 ensures (ms + [m])[i].0 < (ms + [m])[i].1 {
      if i < |ms| {
        assert (ms + [m])[i] == ms[i];
      }
    }
  }

  /** The lists after the first merge of the ids at (row, col + 1). */
  function FirstLists(kind: Strategy, numText: real -> string, ids: seq<string>, s: Step): Lists
    requires s.row < |ids| && s.col + 1 < |ids|
  {
    var l1 := if kind == Upgma then s.minDis else s.d1;
    var l2 := if kind == Upgma then s.minDis else s.d2;
    Lists(Merged(Prefixed(ids), s.row, s.col + 1),
          Remove(ids[s.row := Annotated(ids[s.row], numText(l1), ids[s.col + 1], numText(l2))], s.col + 1),
          [[Pair("p" + ids[s.row], "p" + ids[s.col + 1])]],
          [[l1]],
          if kind == Upgma then [] else [[s.d2]])
  }

  /** `str` of a branch length never holds '(', ')' or ','. */
  ghost predicate PlainText(numText: real -> string)
  {
    forall x :: NoDelimiters(numText(x))
  }

  /** No id holds ':', the Newick length separator. */
  predicate NoColons(ids: seq<string>)
  {
    forall k | 0 <= k < |ids| :: ':' !in ids[k]
  }

  /** get_tree_file up to the Newick text: the first merge, then n-2 more,
      one per matrix size L = n-2, ..., 1.  `first` is the pair the first
      update selects in align2mat's matrix, and `tr` records every later
      pass, from the first reduced matrix and the lists after the first
      merge to the final state.  Every lookup of a merge function
      succeeds, so no merge raises.  `upper` records that every selected
      cell was on or above the diagonal, which UPGMA guarantees; then the
      final name, and the Newick text read back, name each id once. */
  method GetTreeFile(ids1: seq<string>, ids2: seq<string>, tm1: seq<real>, tm2: seq<real>,
                     methodName: string, tmScore: string, numText: real -> string)
    returns (newick: string, book: TreeBook, ids: seq<string>, ghost upper: bool, ghost first: Step, ghost tr: Trace)
    requires |ids1| == |ids2| == |tm1| == |tm2| > 0
    requires 2 * |tm1| >= |Unique(ids1)| * (|Unique(ids1)| + 1)
    requires MinOf(CombinedScores(tm1, tm2, ParseScoreMode(tmScore))) < MaxOf(CombinedScores(tm1, tm2, ParseScoreMode(tmScore)))
    requires forall k | 0 <= k < |ids1| :: NoDelimiters(ids1[k])
    requires forall k | 0 <= k < |ids2| :: NoDelimiters(ids2[k])
    ensures |Unique(ids2)| > 0 && ids == Unique(ids1) + [Unique(ids2)[|Unique(ids2)| - 1]] && |ids| >= 2
    ensures book.Valid() && book.kind == ParseMethod(methodName) && book.numText == numText
    ensures StepValues(book.kind, FirstMatrix(ids1, tm1, tm2, tmScore), |Unique(ids1)|,
                       first.row, first.col, first.minDis, first.d1, first.d2)
    ensures first.col + 1 < |ids|
    ensures Run(book.kind, numText, tr, |ids| - 2) && |tr.steps| == |ids| - 2
    ensures tr.mats[0] == Reduce(FirstMatrix(ids1, tm1, tm2, tmScore), |Unique(ids1)|, first.row, first.col,
                                 if book.kind == Upgma then 0.0 else FirstMatrix(ids1, tm1, tm2, tmScore)[first.row][first.col])
    ensures tr.lists[0] == FirstLists(book.kind, numText, ids, first)
    ensures book.Contents() == tr.lists[|tr.steps|]
    ensures ParseMethod(methodName) == Upgma ==> upper
    ensures |book.nameAll| == 1 && |book.nameDistances| == 1 && newick == book.nameDistances[0]
    ensures TotalSize(book.labels) == |ids| - 1
    ensures upper ==> multiset(Leaves(book.nameAll[0])) == multiset(Prefixed(ids))
    ensures upper && (forall i, j | 0 <= i < j < |ids| :: ids[i] != ids[j]) ==>
      forall k | 0 <= k < |ids| :: multiset(Leaves(book.nameAll[0]))["p" + ids[k]] == 1
    ensures upper && PlainText(numText) && NoColons(ids) ==> multiset(NewickIds(newick)) == multiset(ids)
    ensures upper && PlainText(numText) && NoColons(ids) && (forall i, j | 0 <= i < j < |ids| :: ids[i] != ids[j]) ==>
      forall k | 0 <= k < |ids| :: multiset(NewickIds(newick))[ids[k]] == 1
  {
    var kind := ParseMethod(methodName);
    var matNew, row, col, minDis, d1, d2;
    matNew, book, ids, row, col, minDis, d1, d2 := FirstMerge(ids1, ids2, tm1, tm2, kind, tmScore, numText);
    first := Step(row, col, minDis, d1, d2);
    IdsArePlain(ids1, ids2, ids);
    newick, upper, tr := FinishTree(book, matNew, ids, first);
  }

  /** The rest of get_tree_file after the first merge: the loop, recorded
      in `tr`, then the Newick text of the one cluster left, whose leaves
      and ids are those of the first merge's ids. */
  method FinishTree(book: TreeBook, mat: array2<real>, ghost ids: seq<string>, ghost first: Step)
    returns (newick: string, ghost upper: bool, ghost tr: Trace)
    requires book.Valid() && |ids| >= 2 && first.row < |ids| - 1 && first.col < |ids| - 1
    requires forall k | 0 <= k < |ids| :: NoDelimiters(ids[k])
    requires book.Contents() == FirstLists(book.kind, book.numText, ids, first)
    requires mat.Length0 == |ids| - 2 && mat.Length1 == |ids| - 2
    requires book.kind == Upgma ==> first.row <= first.col && UpgmaShape(mat, |ids| - 2)
    modifies book
    ensures book.Valid()
    ensures book.kind == Upgma ==> upper
    ensures Run(book.kind, book.numText, tr, |ids| - 2) && |tr.steps| == |ids| - 2
    ensures tr.mats[0] == old(Grid(mat)) && tr.lists[0] == old(book.Contents()) && book.Contents() == tr.lists[|tr.steps|]
    ensures |book.nameAll| == 1 && |book.nameDistances| == 1 && newick == book.nameDistances[0]
    ensures TotalSize(book.labels) == |ids| - 1
    ensures book.nameAll == ApplyMerges(tr.lists[0].names, Pairs(tr.steps))
    ensures upper == (first.row <= first.col && Ascending(Pairs(tr.steps)))
    ensures upper ==> multiset(Leaves(book.nameAll[0])) == multiset(Prefixed(ids))
    ensures upper && (forall i, j | 0 <= i < j < |ids| :: ids[i] != ids[j]) ==>
      forall k | 0 <= k < |ids| :: multiset(Leaves(book.nameAll[0]))["p" + ids[k]] == 1
    ensures upper && PlainText(book.numText) && NoColons(ids) ==> multiset(NewickIds(newick)) == multiset(ids)
    ensures upper && PlainText(book.numText) && NoColons(ids) && (forall i, j | 0 <= i < j < |ids| :: ids[i] != ids[j]) ==>
      forall k | 0 <= k < |ids| :: multiset(NewickIds(newick))[ids[k]] == 1
  {
    newick, upper, tr := FinishLoop(book, mat, ids, first);
    FinalTree(book.kind, book.numText, ids, first, tr, |ids| - 2, upper, book.nameAll[0], newick);
  }

  /** The loop of get_tree_file after the first merge, recorded in `tr`,
      and the Newick text of the one cluster left. */
  method FinishLoop(book: TreeBook, mat: array2<real>, ghost ids: seq<string>, ghost first: Step)
    returns (newick: string, ghost upper: bool, ghost tr: Trace)
    requires book.Valid() && |ids| >= 2 && first.row < |ids| - 1 && first.col < |ids| - 1
    requires forall k | 0 <= k < |ids| :: NoDelimiters(ids[k])
    requires book.Contents() == FirstLists(book.kind, book.numText, ids, first)
    requires mat.Length0 == |ids| - 2 && mat.Length1 == |ids| - 2
    requires book.kind == Upgma ==> first.row <= first.col && UpgmaShape(mat, |ids| - 2)
    modifies book
    ensures book.Valid()
    ensures book.kind == Upgma ==> upper
    ensures Run(book.kind, book.numText, tr, |ids| - 2) && |tr.steps| == |ids| - 2
    ensures tr.mats[0] == old(Grid(mat)) && tr.lists[0] == old(book.Contents()) && book.Contents() == tr.lists[|tr.steps|]
    ensures |book.nameAll| == 1 && |book.nameDistances| == 1 && newick == book.nameDistances[0]
    ensures TotalSize(book.labels) == |ids| - 1
    ensures book.nameAll == ApplyMerges(tr.lists[0].names, Pairs(tr.steps))
    ensures upper == (first.row <= first.col && Ascending(Pairs(tr.steps)))
    ensures tr.lists[0] == FirstLists(book.kind, book.numText, ids, first)
    ensures tr.lists[|tr.steps|].names == book.nameAll && tr.lists[|tr.steps|].newicks == book.nameDistances
  {
    var row, col := first.row, first.col;
    FirstListsTraced(book.kind, book.numText, ids, first);
    ghost var l0 := book.Contents();
    assert book.nameAll == l0.names && book.labels == l0.labels;
    tr := MergeRest(book, mat, MergedTrees(LeafTrees(ids), row, col + 1), |ids| - 2);
    upper := row <= col && Ascending(Pairs(tr.steps));
    newick := book.nameDistances[0];
  }

  /** The lists after the first merge hold n-1 names, traced as the
      leaves merged at the pair, and one ledger entry. */
  lemma FirstListsTraced(kind: Strategy, numText: real -> string, ids: seq<string>, first: Step)
    requires forall k | 0 <= k < |ids| :: NoDelimiters(ids[k])
    requires |ids| >= 2 && first.row < |ids| - 1 && first.col < |ids| - 1
    ensures var l0 := FirstLists(kind, numText, ids, first);
      |l0.names| == |ids| - 1 && TotalSize(l0.labels) == 1 &&
      Traced(MergedTrees(LeafTrees(ids), first.row, first.col + 1), l0.names, l0.labels)
  {
    var l0 := FirstLists(kind, numText, ids, first);
    TracedStart(ids, first.row, first.col + 1);
    assert TotalSize(l0.labels) == 1 by {
      assert l0.labels[..0] == [];
    }
  }

  /** What the last lists of a run from the first merge of the ids hold:
      with every merge in ascending order, the one name left has each
      'p'-prefixed id as a leaf and the one Newick text names each id. */
  lemma FinalTree(kind: Strategy, numText: real -> string, ids: seq<string>, first: Step,
                  tr: Trace, n0: nat, upper: bool, name: string, newick: string)
    requires forall k | 0 <= k < |ids| :: NoDelimiters(ids[k])
    requires first.row < |ids| - 1 && first.col < |ids| - 1
    requires Run(kind, numText, tr, n0)
    requires tr.lists[0] == FirstLists(kind, numText, ids, first)
    requires tr.lists[|tr.steps|].names == ApplyMerges(tr.lists[0].names, Pairs(tr.steps))
    requires |tr.lists[|tr.steps|].names| == 1 && |tr.lists[|tr.steps|].newicks| == 1
    requires tr.lists[|tr.steps|].names[0] == name && tr.lists[|tr.steps|].newicks[0] == newick
    requires upper == (first.row <= first.col && Ascending(Pairs(tr.steps)))
    ensures upper ==> multiset(Leaves(name)) == multiset(Prefixed(ids))
    ensures upper && (forall i, j | 0 <= i < j < |ids| :: ids[i] != ids[j]) ==>
      forall k | 0 <= k < |ids| :: multiset(Leaves(name))["p" + ids[k]] == 1
    ensures upper && PlainText(numText) && NoColons(ids) ==> multiset(NewickIds(newick)) == multiset(ids)
    ensures upper && PlainText(numText) && NoColons(ids) && (forall i, j | 0 <= i < j < |ids| :: ids[i] != ids[j]) ==>
      forall k | 0 <= k < |ids| :: multiset(NewickIds(newick))[ids[k]] == 1
  {
    var row, c := first.row, first.col + 1;
    var l1 := if kind == Upgma then first.minDis else first.d1;
    var l2 := if kind == Upgma then first.minDis else first.d2;
    if upper {
      TreeLeaves(ids, row, c, Pairs(tr.steps), tr.lists[|tr.steps|].names);
      if PlainText(numText) && NoColons(ids) {
        NewickOfRun(kind, numText, ids, row, c, l1, l2, tr, n0);
        if forall i, j | 0 <= i < j < |ids| :: ids[i] != ids[j] {
          forall k | 0 <= k < |ids| ensures multiset(NewickIds(newick))[ids[k]] == 1 {
            DistinctOccursOnce(ids, k);
          }
        }
      }
    }
  }

  /** The Newick text left by a run whose merges all have row < c names
      the ids of the first merge, when no id holds ':' and no length text
      holds a delimiter. */
  lemma NewickOfRun(kind: Strategy, numText: real -> string, ids: seq<string>, row: nat, c: nat,
                    l1: real, l2: real, tr: Trace, n0: nat)
    requires forall k | 0 <= k < |ids| :: NoDelimiters(ids[k])
    requires NoColons(ids) && PlainText(numText) && row < c < |ids|
    requires Run(kind, numText, tr, n0) && Ascending(Pairs(tr.steps))
    requires tr.lists[0].newicks == Remove(ids[row := Annotated(ids[row], numText(l1), ids[c], numText(l2))], c)
    requires |tr.lists[|tr.steps|].newicks| == 1
    ensures multiset(NewickIds(tr.lists[|tr.steps|].newicks[0])) == multiset(ids)
  {
    assert NoDelimiters(numText(l1)) && NoDelimiters(numText(l2));
    FirstNewickIds(ids, row, c, numText(l1), numText(l2));
    RunKeepsNewickIds(kind, numText, tr, n0, |tr.steps|);
    var nd := tr.lists[|tr.steps|].newicks;
    assert nd == [] + [nd[0]];
    FlatMapSnoc(NewickIds, [], nd[0]);
  }

  /** Each pass of a run with row <= col keeps the multiset of the ids
      the Newick fragments name. */
  lemma RunKeepsNewickIds(kind: Strategy, numText: real -> string, tr: Trace, n0: nat, k: nat)
    requires Run(kind, numText, tr, n0) && k <= |tr.steps|
    requires Ascending(Pairs(tr.steps)) && PlainText(numText)
    ensures multiset(FlatMap(NewickIds, tr.lists[k].newicks)) == multiset(FlatMap(NewickIds, tr.lists[0].newicks))
  {
    var bags := seq(k + 1, j requires 0 <= j <= k => multiset(FlatMap(NewickIds, tr.lists[j].newicks)));
    forall j | 0 < j < |bags| ensures bags[j] == bags[j - 1] {
      PassKeepsNewickIds(kind, numText, tr, n0, j);
    }
    BagsChain(bags, k);
  }

  /** A sequence of multisets each equal to the one before ends where it
      starts. */
  lemma {:induction false} BagsChain(bags: seq<multiset<string>>, k: nat)
    requires k < |bags| && forall j :: 0 < j < |bags| ==> bags[j] == bags[j - 1]
    ensures bags[k] == bags[0]
  {
    if k > 0 { BagsChain(bags, k - 1); }
  }

  /** The pass of a run with row <= col that leaves lists k keeps the
      multiset of the ids the Newick fragments name. */
  lemma PassKeepsNewickIds(kind: Strategy, numText: real -> string, tr: Trace, n0: nat, k: nat)
    requires Run(kind, numText, tr, n0) && 0 < k <= |tr.steps|
    requires Ascending(Pairs(tr.steps)) && PlainText(numText)
    ensures multiset(FlatMap(NewickIds, tr.lists[k].newicks)) == multiset(FlatMap(NewickIds, tr.lists[k - 1].newicks))
  {
    RunListStep(kind, numText, tr, n0, k - 1);
    assert Pairs(tr.steps)[k - 1].0 < Pairs(tr.steps)[k - 1].1;
    MergeKeepsNewickIds(kind, numText, WindowAt(tr, k - 1));
  }

  /** A pass with row <= col keeps the multiset of the ids the Newick
      fragments name: the merged fragment names those of its two parts. */
  lemma MergeKeepsNewickIds(kind: Strategy, numText: real -> string, w: Window)
    requires ListStep(kind, numText, w) && w.s.row <= w.s.col && PlainText(numText)
    ensures multiset(FlatMap(NewickIds, w.l'.newicks)) == multiset(FlatMap(NewickIds, w.l.newicks))
  {
    AfterMergeKeepsNewickIds(kind, numText, w.l, w.s.row, w.s.col, w.s.minDis, w.s.d1, w.s.d2);
  }

  /** The lists after a merge with row <= col name the same ids in their
      Newick fragments as before it. */
  lemma AfterMergeKeepsNewickIds(kind: Strategy, numText: real -> string, l: Lists, row: nat, col: nat,
                                 minDis: real, d1: real, d2: real)
    requires Shaped(kind, l.names, l.newicks, l.labels, l.ds1, l.ds2)
    requires row <= col && col + 1 < |l.names|
    requires LookupsSucceed(l.labels, l.names[row], l.names[col + 1]) && PlainText(numText)
    ensures multiset(FlatMap(NewickIds, AfterMerge(kind, numText, l, row, col, minDis, d1, d2).newicks))
            == multiset(FlatMap(NewickIds, l.newicks))
  {
    var pre, post := l.names[row], l.names[col + 1];
    var frag := MergeNewick(kind, numText, l.labels, l.ds1, pre, post, l.newicks[row], l.newicks[col + 1], minDis, d1, d2);
    calc {
      multiset(FlatMap(NewickIds, AfterMerge(kind, numText, l, row, col, minDis, d1, d2).newicks));
      { assert AfterMerge(kind, numText, l, row, col, minDis, d1, d2).newicks == Remove(l.newicks[row := frag], col + 1); }
      multiset(FlatMap(NewickIds, Remove(l.newicks[row := frag], col + 1)));
      { MergeNewickIds(kind, numText, l.labels, l.ds1, pre, post, l.newicks[row], l.newicks[col + 1], minDis, d1, d2);
        MergeKeepsFlat(NewickIds, l.newicks, row, col + 1, frag); }
      multiset(FlatMap(NewickIds, l.newicks));
    }
  }

  /** The fragment a merge writes names the ids of its two sides, left
      then right, when no length text holds a delimiter. */
  lemma MergeNewickIds(kind: Strategy, numText: real -> string, labels: seq<seq<Pair>>, ds: seq<seq<real>>,
                       pre: string, post: string, preDis: string, postDis: string, minDis: real, d1: real, d2: real)
    requires Lockstep(labels, ds) && LookupsSucceed(labels, pre, post) && PlainText(numText)
    ensures NewickIds(MergeNewick(kind, numText, labels, ds, pre, post, preDis, postDis, minDis, d1, d2))
            == NewickIds(preDis) + NewickIds(postDis)
  {
    if kind == Upgma {
      var la, lb := UpgmaSide(labels, ds, pre, post, minDis), UpgmaSide(labels, ds, post, pre, minDis);
      assert NoDelimiters(numText(la)) && NoDelimiters(numText(lb));
      NewickIdsOfAnnotated(preDis, numText(la), postDis, numText(lb));
    } else {
      assert NoDelimiters(numText(d1)) && NoDelimiters(numText(d2));
      NewickIdsOfAnnotated(preDis, numText(d1), postDis, numText(d2));
    }
  }

  /** Bare ids without ':' name themselves. */
  lemma {:induction false} FlatNewickIdsOfPlain(ids: seq<string>)
    requires forall k | 0 <= k < |ids| :: NoDelimiters(ids[k])
    requires NoColons(ids)
    ensures FlatMap(NewickIds, ids) == ids
  {
    if |ids| > 0 {
      var init, last := ids[..|ids| - 1], ids[|ids| - 1];
      FlatNewickIdsOfPlain(init);
      NewickIdsOfLeaf(last);
      assert ids == init + [last];
      FlatMapSnoc(NewickIds, init, last);
    }
  }

  /** The Newick fragments after the first merge of bare ids name the ids. */
  lemma FirstNewickIds(ids: seq<string>, row: nat, c: nat, t1: string, t2: string)
    requires forall k | 0 <= k < |ids| :: NoDelimiters(ids[k])
    requires NoColons(ids) && NoDelimiters(t1) && NoDelimiters(t2) && row < c < |ids|
    ensures multiset(FlatMap(NewickIds, Remove(ids[row := Annotated(ids[row], t1, ids[c], t2)], c))) == multiset(ids)
  {
    FlatNewickIdsOfPlain(ids);
    NewickIdsOfAnnotated(ids[row], t1, ids[c], t2);
    NewickIdsOfLeaf(ids[row]);
    NewickIdsOfLeaf(ids[c]);
    MergeKeepsFlat(NewickIds, ids, row, c, Annotated(ids[row], t1, ids[c], t2));
  }

  /** The leaves of the final cluster: the first merge, then merges in
      ascending order, keep the prefixed ids as the leaves. */
  lemma TreeLeaves(ids: seq<string>, row: nat, c: nat, merges: seq<(nat, nat)>, names: seq<string>)
    requires forall k | 0 <= k < |ids| :: NoDelimiters(ids[k])
    requires row < c < |ids| && Ascending(merges)
    requires names == ApplyMerges(Merged(Prefixed(ids), row, c), merges) && |names| == 1
    ensures multiset(Leaves(names[0])) == multiset(Prefixed(ids))
    ensures (forall i, j | 0 <= i < j < |ids| :: ids[i] != ids[j]) ==>
      forall k | 0 <= k < |ids| :: multiset(Leaves(names[0]))["p" + ids[k]] == 1
  {
    FirstLeaves(ids, row, c);
    ApplyMergesKeepsLeaves(Merged(Prefixed(ids), row, c), merges);
    FinalLeaves(names, ids);
  }

  /** At the end one name is left; its leaves are the prefixed ids, each
      once when the ids are distinct. */
  lemma FinalLeaves(names: seq<string>, ids: seq<string>)
    requires |names| == 1
    requires multiset(FlatLeaves(names)) == multiset(Prefixed(ids))
    ensures multiset(Leaves(names[0])) == multiset(Prefixed(ids))
    ensures (forall i, j | 0 <= i < j < |ids| :: ids[i] != ids[j]) ==>
      forall k | 0 <= k < |ids| :: multiset(Leaves(names[0]))["p" + ids[k]] == 1
  {
    assert names == [names[0]];
    FlatLeavesOfOne(names[0]);
    if forall i, j | 0 <= i < j < |ids| :: ids[i] != ids[j] {
      PrefixedOnce(ids);
    }
  }

  /** Distinct ids have distinct prefixed forms, each occurring once. */
  lemma PrefixedOnce(ids: seq<string>)
    requires forall i, j | 0 <= i < j < |ids| :: ids[i] != ids[j]
    ensures forall k | 0 <= k < |ids| :: multiset(Prefixed(ids))["p" + ids[k]] == 1
  {
    var pids := Prefixed(ids);
    forall i, j | 0 <= i < j < |pids| ensures pids[i] != pids[j] {
      assert pids[i][1..] == ids[i] && pids[j][1..] == ids[j];
    }
    forall k | 0 <= k < |ids| ensures multiset(pids)["p" + ids[k]] == 1 {
      DistinctOccursOnce(pids, k);
    }
  }
}
