/** The merge bookkeeping: the parallel name lists and the depth-indexed
    ledger that every merge updates in place (`single_single_*`,
    `single_comp_*`, `comp_single_*`, `comp_comp_*`, `get_num_prelayer`,
    and the first merge done by the driver). */
module Ledger {
  import opened Names

  datatype Option<T> = None | Some(value: T)

  /** The two strategies the driver can run. */
  datatype Strategy = Upgma | Nj

  /** One ledger entry: the two child references of a merge. */
  datatype Pair = Pair(first: string, second: string)

  /** `list.pop(k)`. */
  function Remove<T>(s: seq<T>, k: nat): (r: seq<T>)
    requires k < |s|
    ensures |r| == |s| - 1
    ensures forall j | 0 <= j < k :: r[j] == s[j]
    ensures forall j | k <= j < |r| :: r[j] == s[j + 1]
  {
    s[..k] + s[k + 1..]
  }

  /** `if len(layers) <= d: layers.append([])` then `layers[d].append(x)`. */
  function AppendAt<T>(layers: seq<seq<T>>, d: nat, x: T): (r: seq<seq<T>>)
    requires d <= |layers|
    ensures |r| == if d == |layers| then |layers| + 1 else |layers|
  {
    if d == |layers| then layers + [[x]] else layers[d := layers[d] + [x]]
  }

  /** AppendAt adds x at the end of layer d and touches nothing else. */
  lemma AppendAtAppendsOne<T>(layers: seq<seq<T>>, d: nat, x: T)
    requires d <= |layers|
    ensures AppendedOne(layers, AppendAt(layers, d, x), d)
    ensures AppendAt(layers, d, x)[d][|AppendAt(layers, d, x)[d]| - 1] == x
  {
  }

  /** new is old with exactly one element appended to layer d, a fresh
      layer when d == |old|; every other layer is unchanged. */
  ghost predicate AppendedOne<T>(old_: seq<seq<T>>, new_: seq<seq<T>>, d: nat)
  {
    d <= |old_| &&
    |new_| == (if d == |old_| then |old_| + 1 else |old_|) &&
    |new_[d]| >= 1 &&
    new_[d][..|new_[d]| - 1] == (if d < |old_| then old_[d] else []) &&
    forall k | 0 <= k < |old_| && k != d :: new_[k] == old_[k]
  }

  /** Number of entries over all layers. */
  function TotalSize<T>(layers: seq<seq<T>>): nat
  {
    if |layers| == 0 then 0 else TotalSize(layers[..|layers| - 1]) + |layers[|layers| - 1]|
  }

  lemma {:induction false} TotalSizeUpdate<T>(layers: seq<seq<T>>, d: nat, l: seq<T>)
    requires d < |layers|
    ensures TotalSize(layers[d := l]) == TotalSize(layers) - |layers[d]| + |l|
  {
    var n := |layers|;
    var u := layers[d := l];
    assert u[..n - 1] == if d == n - 1 then layers[..n - 1] else layers[..n - 1][d := l];
    if d < n - 1 {
      TotalSizeUpdate(layers[..n - 1], d, l);
    }
  }

  /** Appending one entry adds one to the total. */
  lemma AppendedOneTotal<T>(old_: seq<seq<T>>, new_: seq<seq<T>>, d: nat)
    requires AppendedOne(old_, new_, d)
    ensures TotalSize(new_) == TotalSize(old_) + 1
  {
    if d == |old_| {
      assert new_[..|new_| - 1] == old_;
    } else {
      assert new_ == old_[d := new_[d]];
      TotalSizeUpdate(old_, d, new_[d]);
    }
  }

  /** Two ledgers with the same layer count and layer lengths. */
  ghost predicate Lockstep<T, U>(a: seq<seq<T>>, b: seq<seq<U>>)
  {
    |a| == |b| && forall d | 0 <= d < |a| :: |a[d]| == |b[d]|
  }

  /** Appending at the same layer of two ledgers in lockstep keeps them
      in lockstep. */
  lemma AppendAtLockstep<T, U>(a: seq<seq<T>>, b: seq<seq<U>>, d: nat, x: T, y: U)
    requires Lockstep(a, b) && d <= |a|
    ensures Lockstep(AppendAt(a, d, x), AppendAt(b, d, y))
  {
    var a', b' := AppendAt(a, d, x), AppendAt(b, d, y);
    AppendAtAppendsOne(a, d, x);
    AppendAtAppendsOne(b, d, y);
    forall k | 0 <= k < |a'| ensures |a'[k]| == |b'[k]| {
      if k == d {
        assert a'[k][..|a'[k]| - 1] == (if d < |a| then a[d] else []);
        assert b'[k][..|b'[k]| - 1] == (if d < |b| then b[d] else []);
      }
    }
  }

  // ---------------------------------------------------------------------
  // get_num_prelayer

  /** The leaf name an entry's first reference stands for: a reference
      with a numeric layer prefix is cut at its first 'p'.  None where the
      program fails (an empty reference, or no 'p' to cut at). */
  function EntryKey(pro: string): (r: Option<string>)
    ensures r.Some? <==> |pro| > 0 && 'p' in pro
    ensures r.Some? ==> |r.value| > 0 && r.value[0] == 'p'
  {
    if |pro| == 0 then None
    else if pro[0] == 'p' then Some(pro)
    else if 'p' in pro then Some(pro[FirstP(pro)..])
    else None
  }

  datatype ScanState = Failed | Scanned(last: Option<nat>)

  /** The state of get_num_prelayer's loop after the first k entries: the
      last matching entry so far, or Failed. */
  function PrelayerScan(layer: seq<Pair>, first: string, k: nat): ScanState
    requires k <= |layer|
  {
    if k == 0 then Scanned(None)
    else
      match PrelayerScan(layer, first, k - 1)
      case Failed => Failed
      case Scanned(last) =>
        match EntryKey(layer[k - 1].first)
        case None => Failed
        case Some(key) => Scanned(if key == first then Some(k - 1) else last)
  }

  /** The scan fails exactly when some entry has no key; otherwise it
      holds the last entry whose key is the leaf sought, if any. */
  lemma PrelayerScanMeaning(layer: seq<Pair>, first: string, k: nat)
    requires k <= |layer|
    ensures PrelayerScan(layer, first, k) == Failed <==> exists i | 0 <= i < k :: EntryKey(layer[i].first) == None
    ensures PrelayerScan(layer, first, k) == Scanned(None) ==>
      forall j | 0 <= j < k :: EntryKey(layer[j].first) != Some(first)
    ensures forall i: nat :: PrelayerScan(layer, first, k) == Scanned(Some(i)) ==>
      i < k && EntryKey(layer[i].first) == Some(first) &&
      forall j | i < j < k :: EntryKey(layer[j].first) != Some(first)
  {
    PrelayerScanFails(layer, first, k);
    PrelayerScanNone(layer, first, k);
    PrelayerScanLast(layer, first, k);
  }

  /** The scan fails exactly when some entry has no key. */
  lemma {:induction false} PrelayerScanFails(layer: seq<Pair>, first: string, k: nat)
    requires k <= |layer|
    ensures PrelayerScan(layer, first, k) == Failed <==> exists i | 0 <= i < k :: EntryKey(layer[i].first) == None
  {
    if k > 0 {
      PrelayerScanFails(layer, first, k - 1);
      if PrelayerScan(layer, first, k - 1) == Failed {
        var i :| 0 <= i < k - 1 && EntryKey(layer[i].first) == None;
        assert 0 <= i < k;
      } else if EntryKey(layer[k - 1].first) != None {
        assert forall i | 0 <= i < k :: EntryKey(layer[i].first) != None;
      }
    }
  }

  /** A scan that found nothing passed no entry keyed by the leaf. */
  lemma {:induction false} PrelayerScanNone(layer: seq<Pair>, first: string, k: nat)
    requires k <= |layer|
    ensures PrelayerScan(layer, first, k) == Scanned(None) ==>
      forall j | 0 <= j < k :: EntryKey(layer[j].first) != Some(first)
  {
    if k > 0 {
      PrelayerScanNone(layer, first, k - 1);
    }
  }

  /** A scan that found entry i found the last entry keyed by the leaf. */
  lemma {:induction false} PrelayerScanLast(layer: seq<Pair>, first: string, k: nat)
    requires k <= |layer|
    ensures forall i: nat :: PrelayerScan(layer, first, k) == Scanned(Some(i)) ==>
      i < k && EntryKey(layer[i].first) == Some(first) &&
      forall j | i < j < k :: EntryKey(layer[j].first) != Some(first)
  {
    if k > 0 {
      PrelayerScanLast(layer, first, k - 1);
    }
  }


  /** The result of get_num_prelayer: the matching entry's reference
      (its index's digits before the leaf name) and, because the loop
      variable is returned after the loop, the index of the LAST entry. */
  function PrelayerLookup(layer: seq<Pair>, first: string): (r: Option<(string, nat)>)
    ensures r.Some? ==> |layer| > 0 && r.value.1 == |layer| - 1
  {
    match PrelayerScan(layer, first, |layer|)
    case Failed => None
    case Scanned(None) => None
    case Scanned(Some(i)) => Some((NatText(i) + first, |layer| - 1))
  }

  /** The lookup succeeds exactly when every entry has a key and one of
      them is the leaf sought; the reference it returns is that of the
      last such entry. */
  lemma PrelayerLookupMeaning(layer: seq<Pair>, first: string)
    ensures PrelayerLookup(layer, first).Some? <==>
      (forall i | 0 <= i < |layer| :: EntryKey(layer[i].first).Some?) &&
      (exists i | 0 <= i < |layer| :: EntryKey(layer[i].first) == Some(first))
    ensures PrelayerLookup(layer, first).Some? ==> exists i | 0 <= i < |layer| ::
      EntryKey(layer[i].first) == Some(first) && PrelayerLookup(layer, first).value.0 == NatText(i) + first &&
      forall j | i < j < |layer| :: EntryKey(layer[j].first) != Some(first)
  {
    PrelayerScanMeaning(layer, first, |layer|);
    var st := PrelayerScan(layer, first, |layer|);
    if st.Scanned? && st.last.Some? {
      var i := st.last.value;
      assert EntryKey(layer[i].first) == Some(first);
    }
  }

  /** get_num_prelayer. */
  method GetNumPrelayer(layer: seq<Pair>, first: string) returns (res: Option<(string, nat)>)
    ensures res == PrelayerLookup(layer, first)
  {
    var found := false;
    var comb := "";
    ghost var last := 0;
    for i := 0 to |layer|
      invariant PrelayerScan(layer, first, i) == Scanned(if found then Some(last) else None)
      invariant found ==> comb == NatText(last) + first
    {
      var pro := layer[i].first;
      if |pro| == 0 {
        assert EntryKey(layer[i].first) == None;
        PrelayerScanMeaning(layer, first, |layer|);
        return None;
      }
      if pro[0] != 'p' {
        if 'p' !in pro {
          assert EntryKey(layer[i].first) == None;
          PrelayerScanMeaning(layer, first, |layer|);
          return None;
        }
        var ind := GetProNameNoNum(pro);
        assert ind == FirstP(pro);
        pro := pro[ind..];
      }
      assert EntryKey(layer[i].first) == Some(pro);
      if first == pro {
        comb := NatText(i) + first;
        found := true;
        last := i;
      }
    }
    if !found {
      return None;
    }
    res := Some((comb, |layer| - 1));
  }

  /** The lookup a merge does for a composite side: its depth d from the
      bracket count and the entry of its first leaf in layer d-1.  A depth
      of 0 or beyond the ledger gives None. */
  function CompositeLookup(labels: seq<seq<Pair>>, name: string): (r: Option<(string, nat)>)
    ensures r.Some? ==> 1 <= Depth(name) <= |labels| && r.value.1 == |labels[Depth(name) - 1]| - 1
  {
    var d := Depth(name);
    if d == 0 || d > |labels| then None
    else PrelayerLookup(labels[d - 1], TakeUntilComma(RemoveBrackets(name)))
  }

  /** A successful lookup names an existing entry of the length ledger
      too, in layer depth-1. */
  lemma LookupInRange<T>(labels: seq<seq<Pair>>, ds: seq<seq<T>>, name: string)
    requires Lockstep(labels, ds) && CompositeLookup(labels, name).Some?
    ensures 1 <= Depth(name) <= |ds|
    ensures CompositeLookup(labels, name).value.1 == |ds[Depth(name) - 1]| - 1
  {
  }

  /** A composite side's UPGMA branch length: min_dis less the length
      recorded with its first leaf's entry in layer depth-1. */
  function SideLength(labels: seq<seq<Pair>>, ds: seq<seq<real>>, name: string, minDis: real): (r: real)
    requires Lockstep(labels, ds) && CompositeLookup(labels, name).Some?
    ensures 1 <= Depth(name) <= |ds| && |ds[Depth(name) - 1]| > 0
    ensures r == minDis - ds[Depth(name) - 1][|ds[Depth(name) - 1]| - 1]
  {
    LookupInRange(labels, ds, name);
    minDis - ds[Depth(name) - 1][CompositeLookup(labels, name).value.1]
  }

  /** The layer a merge of two composites writes to: the larger depth. */
  function MaxDepth(pre: string, post: string): (d: nat)
    ensures d >= Depth(pre) && d >= Depth(post) && (d == Depth(pre) || d == Depth(post))
  {
    if Depth(pre) >= Depth(post) then Depth(pre) else Depth(post)
  }

  /** The common start of the composite merges. */
  method LookupComposite(labels: seq<seq<Pair>>, name: string) returns (d: nat, res: Option<(string, nat)>)
    ensures d == Depth(name)
    ensures res == CompositeLookup(labels, name)
  {
    d := GetNumBra(name);
    var first := GetFirstPro(name);
    PrefixUntilCommaUnique(RemoveBrackets(name), first, TakeUntilComma(RemoveBrackets(name)));
    if d == 0 || d > |labels| {
      return d, None;
    }
    res := GetNumPrelayer(labels[d - 1], first);
  }

  // ---------------------------------------------------------------------
  // The ledger state

  /** The shape the bookkeeping keeps: the two name lists in step, every
      plain name nonempty, and the length ledgers in lockstep with the
      label ledger (the second one only under NJ). */
  ghost predicate Shaped(kind: Strategy, names: seq<string>, newicks: seq<string>,
                         labels: seq<seq<Pair>>, ds1: seq<seq<real>>, ds2: seq<seq<real>>)
  {
    |names| == |newicks| &&
    (forall k | 0 <= k < |names| :: |names[k]| > 0) &&
    |labels| >= 1 &&
    Lockstep(labels, ds1) &&
    (kind == Nj ==> Lockstep(labels, ds2)) &&
    (kind == Upgma ==> ds2 == [])
  }

  /** One merge (a name replaced by a nonempty one, one ledger entry per
      ledger at layer d) keeps the shape. */
  lemma MergeKeepsShape(kind: Strategy, names: seq<string>, newicks: seq<string>,
                        labels: seq<seq<Pair>>, ds1: seq<seq<real>>, ds2: seq<seq<real>>,
                        row: nat, name: string, newick: string, d: nat, x: Pair, y1: real, y2: real)
    requires Shaped(kind, names, newicks, labels, ds1, ds2)
    requires row < |names| && |name| > 0 && d <= |labels|
    ensures Shaped(kind, names[row := name], newicks[row := newick], AppendAt(labels, d, x),
                   AppendAt(ds1, d, y1), if kind == Nj then AppendAt(ds2, d, y2) else ds2)
    ensures forall k | 0 <= k < |ds1| && k != d :: AppendAt(ds1, d, y1)[k] == ds1[k]
  {
    AppendAtLockstep(labels, ds1, d, x, y1);
    if kind == Nj {
      AppendAtLockstep(labels, ds2, d, x, y2);
    }
  }

  /** The five lists of the bookkeeping as one value: name_all,
      name_distances, labels and the one or two length ledgers. */
  datatype Lists = Lists(names: seq<string>, newicks: seq<string>, labels: seq<seq<Pair>>,
                         ds1: seq<seq<real>>, ds2: seq<seq<real>>)

  class TreeBook {
    const kind: Strategy
    /** `str` of a branch length. */
    const numText: real -> string
    /** name_all: the plain nested names of the active clusters. */
    var nameAll: seq<string>
    /** name_distances: the Newick fragments of the active clusters. */
    var nameDistances: seq<string>
    var labels: seq<seq<Pair>>
    /** `distances` under UPGMA, `distances1` under NJ. */
    var distances1: seq<seq<real>>
    /** `distances2` under NJ; empty under UPGMA. */
    var distances2: seq<seq<real>>

    ghost predicate Valid()
      reads this
    {
      Shaped(kind, nameAll, nameDistances, labels, distances1, distances2)
    }

    /** The current lists, as a value. */
    function Contents(): Lists
      reads this
    {
      Lists(nameAll, nameDistances, labels, distances1, distances2)
    }

    /** The first UPGMA merge (get_clusters.py): min_dis on both sides. */
    constructor FirstUpgma(numText: real -> string, pids: seq<string>, ids: seq<string>, row: nat, col: nat, minDis: real)
      requires |pids| == |ids| && row < |ids| && col + 1 < |ids|
      requires forall k | 0 <= k < |pids| :: |pids[k]| > 0
      ensures Valid() && kind == Upgma && this.numText == numText
      ensures nameAll == Remove(pids[row := Bracket(pids[row], pids[col + 1])], col + 1)
      ensures nameDistances == Remove(ids[row := Annotated(ids[row], numText(minDis), ids[col + 1], numText(minDis))], col + 1)
      ensures labels == [[Pair(pids[row], pids[col + 1])]]
      ensures distances1 == [[minDis]] && distances2 == []
    {
      kind := Upgma;
      this.numText := numText;
      nameAll := Remove(pids[row := Bracket(pids[row], pids[col + 1])], col + 1);
      nameDistances := Remove(ids[row := Annotated(ids[row], numText(minDis), ids[col + 1], numText(minDis))], col + 1);
      labels := [[Pair(pids[row], pids[col + 1])]];
      distances1 := [[minDis]];
      distances2 := [];
    }

    /** The first NJ merge: the two lengths on their sides. */
    constructor FirstNj(numText: real -> string, pids: seq<string>, ids: seq<string>, row: nat, col: nat, d1: real, d2: real)
      requires |pids| == |ids| && row < |ids| && col + 1 < |ids|
      requires forall k | 0 <= k < |pids| :: |pids[k]| > 0
      ensures Valid() && kind == Nj && this.numText == numText
      ensures nameAll == Remove(pids[row := Bracket(pids[row], pids[col + 1])], col + 1)
      ensures nameDistances == Remove(ids[row := Annotated(ids[row], numText(d1), ids[col + 1], numText(d2))], col + 1)
      ensures labels == [[Pair(pids[row], pids[col + 1])]]
      ensures distances1 == [[d1]] && distances2 == [[d2]]
    {
      kind := Nj;
      this.numText := numText;
      nameAll := Remove(pids[row := Bracket(pids[row], pids[col + 1])], col + 1);
      nameDistances := Remove(ids[row := Annotated(ids[row], numText(d1), ids[col + 1], numText(d2))], col + 1);
      labels := [[Pair(pids[row], pids[col + 1])]];
      distances1 := [[d1]];
      distances2 := [[d2]];
    }

    /** The update every merge ends with: the merged cluster's name and
        Newick fragment at row, and one entry per ledger at layer d (the
        second length ledger exists only under NJ). */
    method Record(row: nat, name: string, newick: string, d: nat, x: Pair, y1: real, y2: real)
      requires Valid() && row < |nameAll| && |name| > 0 && d <= |labels|
      modifies this
      ensures Valid()
      ensures nameAll == old(nameAll)[row := name] && nameDistances == old(nameDistances)[row := newick]
      ensures labels == AppendAt(old(labels), d, x) && distances1 == AppendAt(old(distances1), d, y1)
      ensures distances2 == if kind == Nj then AppendAt(old(distances2), d, y2) else old(distances2)
      ensures TotalSize(labels) == TotalSize(old(labels)) + 1
    {
      AppendAtAppendsOne(labels, d, x);
      AppendedOneTotal(labels, AppendAt(labels, d, x), d);
      MergeKeepsShape(kind, nameAll, nameDistances, labels, distances1, distances2, row, name, newick, d, x, y1, y2);
      labels := AppendAt(labels, d, x);
      nameAll := nameAll[row := name];
      distances1 := AppendAt(distances1, d, y1);
      if kind == Nj {
        distances2 := AppendAt(distances2, d, y2);
      }
      nameDistances := nameDistances[row := newick];
    }

    /** single_single_upgma: layer 0, min_dis/2 on both sides. */
    method SingleSingleUpgma(row: nat, pre: string, post: string, minDis: real, preDis: string, postDis: string)
      requires Valid() && kind == Upgma && row < |nameAll|
      modifies this
      ensures Valid()
      ensures nameAll == old(nameAll)[row := Bracket(pre, post)]
      ensures labels == AppendAt(old(labels), 0, Pair(pre, post))
      ensures distances1 == AppendAt(old(distances1), 0, minDis)
      ensures distances2 == old(distances2)
      ensures nameDistances == old(nameDistances)[row := Annotated(preDis, numText(minDis / 2.0), postDis, numText(minDis / 2.0))]
      ensures TotalSize(labels) == TotalSize(old(labels)) + 1
    {
      assert |Bracket(pre, post)| > 0;
      Record(row, Bracket(pre, post), Annotated(preDis, numText(minDis / 2.0), postDis, numText(minDis / 2.0)), 0, Pair(pre, post), minDis, 0.0);
    }

    /** single_single_nj: layer 0, the two NJ lengths. */
    method SingleSingleNj(row: nat, pre: string, post: string, d1: real, d2: real, preDis: string, postDis: string)
      requires Valid() && kind == Nj && row < |nameAll|
      modifies this
      ensures Valid()
      ensures nameAll == old(nameAll)[row := Bracket(pre, post)]
      ensures labels == AppendAt(old(labels), 0, Pair(pre, post))
      ensures distances1 == AppendAt(old(distances1), 0, d1)
      ensures distances2 == AppendAt(old(distances2), 0, d2)
      ensures nameDistances == old(nameDistances)[row := Annotated(preDis, numText(d1), postDis, numText(d2))]
      ensures TotalSize(labels) == TotalSize(old(labels)) + 1
    {
      assert |Bracket(pre, post)| > 0;
      Record(row, Bracket(pre, post), Annotated(preDis, numText(d1), postDis, numText(d2)), 0, Pair(pre, post), d1, d2);
    }

    /** single_comp_upgma: the entry goes to the composite's depth d; the
        leaf side gets min_dis, the composite side min_dis less the length
        at index i of layer d-1. */
    method SingleCompUpgma(row: nat, pre: string, post: string, minDis: real, preDis: string, postDis: string)
      returns (ok: bool)
      requires Valid() && kind == Upgma && row < |nameAll|
      modifies this
      ensures Valid()
      ensures ok == CompositeLookup(old(labels), post).Some?
      ensures !ok ==> unchanged(this)
      ensures ok ==> nameAll == old(nameAll)[row := Bracket(pre, post)]
      ensures ok ==> labels == AppendAt(old(labels), Depth(post), Pair(pre, CompositeLookup(old(labels), post).value.0))
      ensures ok ==> distances1 == AppendAt(old(distances1), Depth(post), minDis) && distances2 == old(distances2)
      ensures ok ==> nameDistances == old(nameDistances)[row := Annotated(preDis, numText(minDis), postDis,
        numText(SideLength(old(labels), old(distances1), post, minDis)))]
      ensures ok ==> TotalSize(labels) == TotalSize(old(labels)) + 1
    {
      var d, look := LookupComposite(labels, post);
      if look.None? {
        return false;
      }
      var comb, i := look.value.0, look.value.1;
      LookupInRange(labels, distances1, post);
      // layer d-1 lies below the layer the append goes to, so reading it
      // before the append reads what the program reads after it
      var disComp := minDis - distances1[d - 1][i];
      assert |Bracket(pre, post)| > 0;
      Record(row, Bracket(pre, post), Annotated(preDis, numText(minDis), postDis, numText(disComp)), d, Pair(pre, comb), minDis, 0.0);
      ok := true;
    }

    /** single_comp_nj: as above, with the two NJ lengths written as they are. */
    method SingleCompNj(row: nat, pre: string, post: string, d1: real, d2: real, preDis: string, postDis: string)
      returns (ok: bool)
      requires Valid() && kind == Nj && row < |nameAll|
      modifies this
      ensures Valid()
      ensures ok == CompositeLookup(old(labels), post).Some?
      ensures !ok ==> unchanged(this)
      ensures ok ==> nameAll == old(nameAll)[row := Bracket(pre, post)]
      ensures ok ==> labels == AppendAt(old(labels), Depth(post), Pair(pre, CompositeLookup(old(labels), post).value.0))
      ensures ok ==> distances1 == AppendAt(old(distances1), Depth(post), d1)
      ensures ok ==> distances2 == AppendAt(old(distances2), Depth(post), d2)
      ensures ok ==> nameDistances == old(nameDistances)[row := Annotated(preDis, numText(d1), postDis, numText(d2))]
      ensures ok ==> TotalSize(labels) == TotalSize(old(labels)) + 1
    {
      var d, look := LookupComposite(labels, post);
      if look.None? {
        return false;
      }
      assert |Bracket(pre, post)| > 0;
      Record(row, Bracket(pre, post), Annotated(preDis, numText(d1), postDis, numText(d2)), d, Pair(pre, look.value.0), d1, d2);
      ok := true;
    }

    /** comp_single_upgma: mirror image of single_comp_upgma. */
    method CompSingleUpgma(row: nat, pre: string, post: string, minDis: real, preDis: string, postDis: string)
      returns (ok: bool)
      requires Valid() && kind == Upgma && row < |nameAll|
      modifies this
      ensures Valid()
      ensures ok == CompositeLookup(old(labels), pre).Some?
      ensures !ok ==> unchanged(this)
      ensures ok ==> nameAll == old(nameAll)[row := Bracket(pre, post)]
      ensures ok ==> labels == AppendAt(old(labels), Depth(pre), Pair(CompositeLookup(old(labels), pre).value.0, post))
      ensures ok ==> distances1 == AppendAt(old(distances1), Depth(pre), minDis) && distances2 == old(distances2)
      ensures ok ==> nameDistances == old(nameDistances)[row := Annotated(preDis,
        numText(SideLength(old(labels), old(distances1), pre, minDis)), postDis, numText(minDis))]
      ensures ok ==> TotalSize(labels) == TotalSize(old(labels)) + 1
    {
      var d, look := LookupComposite(labels, pre);
      if look.None? {
        return false;
      }
      var comb, i := look.value.0, look.value.1;
      LookupInRange(labels, distances1, pre);
      // as in SingleCompUpgma, layer d-1 is not the one appended to
      var disComp := minDis - distances1[d - 1][i];
      assert |Bracket(pre, post)| > 0;
      Record(row, Bracket(pre, post), Annotated(preDis, numText(disComp), postDis, numText(minDis)), d, Pair(comb, post), minDis, 0.0);
      ok := true;
    }

    /** comp_single_nj. */
    method CompSingleNj(row: nat, pre: string, post: string, d1: real, d2: real, preDis: string, postDis: string)
      returns (ok: bool)
      requires Valid() && kind == Nj && row < |nameAll|
      modifies this
      ensures Valid()
      ensures ok == CompositeLookup(old(labels), pre).Some?
      ensures !ok ==> unchanged(this)
      ensures ok ==> nameAll == old(nameAll)[row := Bracket(pre, post)]
      ensures ok ==> labels == AppendAt(old(labels), Depth(pre), Pair(CompositeLookup(old(labels), pre).value.0, post))
      ensures ok ==> distances1 == AppendAt(old(distances1), Depth(pre), d1)
      ensures ok ==> distances2 == AppendAt(old(distances2), Depth(pre), d2)
      ensures ok ==> nameDistances == old(nameDistances)[row := Annotated(preDis, numText(d1), postDis, numText(d2))]
      ensures ok ==> TotalSize(labels) == TotalSize(old(labels)) + 1
    {
      var d, look := LookupComposite(labels, pre);
      if look.None? {
        return false;
      }
      assert |Bracket(pre, post)| > 0;
      Record(row, Bracket(pre, post), Annotated(preDis, numText(d1), postDis, numText(d2)), d, Pair(look.value.0, post), d1, d2);
      ok := true;
    }

    /** comp_comp_upgma: both sides looked up, the entry at the larger
        depth, each side's length min_dis less its own layer's length. */
    method CompCompUpgma(row: nat, pre: string, post: string, minDis: real, preDis: string, postDis: string)
      returns (ok: bool)
      requires Valid() && kind == Upgma && row < |nameAll|
      modifies this
      ensures Valid()
      ensures ok == (CompositeLookup(old(labels), pre).Some? && CompositeLookup(old(labels), post).Some?)
      ensures !ok ==> unchanged(this)
      ensures ok ==> nameAll == old(nameAll)[row := Bracket(pre, post)]
      ensures ok ==> labels == AppendAt(old(labels), MaxDepth(pre, post),
        Pair(CompositeLookup(old(labels), pre).value.0, CompositeLookup(old(labels), post).value.0))
      ensures ok ==> distances1 == AppendAt(old(distances1), MaxDepth(pre, post), minDis) && distances2 == old(distances2)
      ensures ok ==> nameDistances == old(nameDistances)[row := Annotated(
        preDis, numText(SideLength(old(labels), old(distances1), pre, minDis)),
        postDis, numText(SideLength(old(labels), old(distances1), post, minDis)))]
      ensures ok ==> TotalSize(labels) == TotalSize(old(labels)) + 1
    {
      var dPre, lookPre := LookupComposite(labels, pre);
      var dPost, lookPost := LookupComposite(labels, post);
      if lookPre.None? || lookPost.None? {
        return false;
      }
      var big := if dPre >= dPost then dPre else dPost;
      LookupInRange(labels, distances1, pre);
      LookupInRange(labels, distances1, post);
      // layers dPre-1 and dPost-1 lie below big, the layer appended to
      var disPre := minDis - distances1[dPre - 1][lookPre.value.1];
      var disPost := minDis - distances1[dPost - 1][lookPost.value.1];
      assert disPre == SideLength(labels, distances1, pre, minDis);
      assert disPost == SideLength(labels, distances1, post, minDis);
      var newick := Annotated(preDis, numText(disPre), postDis, numText(disPost));
      assert |Bracket(pre, post)| > 0;
      Record(row, Bracket(pre, post), newick, big,
             Pair(lookPre.value.0, lookPost.value.0), minDis, 0.0);
      ok := true;
    }

    /** comp_comp_nj. */
    method CompCompNj(row: nat, pre: string, post: string, d1: real, d2: real, preDis: string, postDis: string)
      returns (ok: bool)
      requires Valid() && kind == Nj && row < |nameAll|
      modifies this
      ensures Valid()
      ensures ok == (CompositeLookup(old(labels), pre).Some? && CompositeLookup(old(labels), post).Some?)
      ensures !ok ==> unchanged(this)
      ensures ok ==> nameAll == old(nameAll)[row := Bracket(pre, post)]
      ensures ok ==> labels == AppendAt(old(labels), MaxDepth(pre, post),
        Pair(CompositeLookup(old(labels), pre).value.0, CompositeLookup(old(labels), post).value.0))
      ensures ok ==> distances1 == AppendAt(old(distances1), MaxDepth(pre, post), d1)
      ensures ok ==> distances2 == AppendAt(old(distances2), MaxDepth(pre, post), d2)
      ensures ok ==> nameDistances == old(nameDistances)[row := Annotated(preDis, numText(d1), postDis, numText(d2))]
      ensures ok ==> TotalSize(labels) == TotalSize(old(labels)) + 1
    {
      var dPre, lookPre := LookupComposite(labels, pre);
      var dPost, lookPost := LookupComposite(labels, post);
      if lookPre.None? || lookPost.None? {
        return false;
      }
      var big := if dPre >= dPost then dPre else dPost;
      assert |Bracket(pre, post)| > 0;
      Record(row, Bracket(pre, post), Annotated(preDis, numText(d1), postDis, numText(d2)), big,
             Pair(lookPre.value.0, lookPost.value.0), d1, d2);
      ok := true;
    }

    /** `name_all.pop(k)` and `name_distances.pop(k)`. */
    method PopBoth(k: nat)
      requires Valid() && k < |nameAll|
      modifies this
      ensures Valid()
      ensures nameAll == Remove(old(nameAll), k) && nameDistances == Remove(old(nameDistances), k)
      ensures labels == old(labels) && distances1 == old(distances1) && distances2 == old(distances2)
    {
      nameAll := Remove(nameAll, k);
      nameDistances := Remove(nameDistances, k);
    }
  }
}
