# Agglomerative tree builder of stacpro, modelled in Dafny

stacpro clusters protein structures by their pairwise TM-scores. Its tree
builder (`clustering/tree_functions.py` and `get_tree_file` in
`clustering/get_clusters.py`) works in four stages:

- It turns the pairwise score table into an upper-triangular
  dissimilarity matrix.
- It repeatedly merges the closest pair of clusters. There are two
  strategies, UPGMA and neighbour joining (NJ).
- It keeps two parallel name lists: the plain nested names (`name_all`)
  and the Newick fragments (`name_distances`).
- It keeps a depth-indexed ledger of merges (`labels`) and of branch
  lengths (`distances`).

`get_similarity_clust` reads a cut threshold off that ledger.

The project has seven modules:

- `Matrix` (matrix.dfy) holds the dissimilarity matrix. The program's
  numpy arrays are `array2<real>`. The ghost view `Grid` gives their
  value as rows. The sentinel 1.0001 sits below the diagonal.
  `Dist(m, n, a, b)` is the entity view. `ArgMin` finds the first
  minimum in row-major order.
- `Build` (build.dfy) models `align2mat`:
  - the score-mode option;
  - min-max normalisation;
  - the entity order built from `unique`;
  - the nested fill loop that writes score number
    `RowStart(m, i) + (j - i)` into cell (i, j).
- `Reduction` (reduction.dfy) models `update_mat_upgma`,
  `update_mat_nj`, `get_r_mat` and `get_m_mat`. The re-indexing loops
  are stated against `Reduce`. Lemmas show three things:
  - pairs of untouched entities keep their dissimilarity;
  - the merged cluster gets the (NJ: corrected) mean;
  - the shape of the matrix is kept.
- `Names` (names.dfy) holds the string helpers:
  - `get_num_bra` (maximum nesting depth);
  - `get_1st_pro` and `get_xticklabel` (leaves of a nested name);
  - `add_p`;
  - `get_pro_name_no_num`.

  Each scanning loop is proved against a pure definition. The
  definitions' own properties are proved as lemmas:
  - splitting and joining are inverse;
  - the leaves of a merge are the left leaves followed by the right.
- `Ledger` (ledger.dfy) is the merge bookkeeping. It holds:
  - `get_num_prelayer`;
  - the class `TreeBook`. Its fields are the two name lists and the
    ledgers. Its methods are the eight merge functions
    (`single_single_*`, `single_comp_*`, `comp_single_*`,
    `comp_comp_*`), which update those fields in place.
- `Threshold` (threshold.dfy) models `get_similarity_clust`, with
  Python's negative indexing written out.
- `Clusters` (clusters.dfy) is the driver `get_tree_file`:
  - the first merge;
  - the four-way leaf/composite dispatch;
  - the loop of n-2 further merges.

  It proves four things:
  - every lookup a merge function makes succeeds, so no merge raises;
  - the loop shrinks the name lists to one entry and adds one ledger
    entry per merge, n-1 in all;
  - every pass is recorded in a ghost trace (`Trace`, checked by
    `Run`): the pair it selects is the strategy's choice in the
    current matrix (`StepValues`), the next matrix is that matrix
    reduced (`Reduce`), and all the lists, Newick fragments and
    ledgers included, become `AfterMerge` of the previous ones;
  - under UPGMA, the final name's leaves are exactly the 'p'-prefixed
    ids, and the ids read back off the Newick text are exactly the ids.

  The lookups are proved through a ghost tree per active name (`Tree` in
  names.dfy). The name is the tree's bracketed rendering. Its
  `get_num_bra` is the tree's height. Its `get_1st_pro` is the tree's
  first leaf. A merged tree has an entry keyed by that first leaf in
  ledger layer height-1.

Scores and lengths are `real`. Python's `str` of a number is the
parameter `numText: real -> string`. Python's `str` of a layer index is
`NatText`, its decimal digits. The CSV table is given as four column
sequences: `ids1`, `ids2`, `tm1` and `tm2`. Wherever the program would
raise (an unbound local, an `IndexError`), the model returns `None` or
`ok == false`. The state is then as the program left it when it raised.
The driver proves that for delimiter-free ids none of these failures
occurs in a merge.

## Model

| member | source | states |
|---|---|---|
| Matrix.ArgMin | clustering/tree_functions.py:86-90 | the selected (row, col) is the first minimum in row-major order: no cell is smaller, and every earlier cell is strictly larger |
| Matrix.FirstMinIsUpper | clustering/tree_functions.py:56-92 | with the sentinel below the diagonal and every meaningful cell below it, the first minimum has row <= col |
| Matrix.UnitRangeBelowSentinel | clustering/tree_functions.py:48-56 | cells in [0, 1] lie below the sentinel 1.0001 |
| Build.ParseScoreMode | clustering/tree_functions.py:29-46 | the mean is used exactly when the option is none of "TM1", "TM2", "long", "short"; "long" and "short" select their modes and nothing else does |
| Build.Combine | clustering/tree_functions.py:29-46 | the combined score lies between the two scores; "TM1" takes the first score and "TM2" the second, "long" the smaller one, "short" the larger one, and the mean is equidistant from both |
| Build.CombinedScores | clustering/tree_functions.py:29-46 | one combined score per table row, at the same position |
| Build.MinOf | clustering/tree_functions.py:48 | the minimum is an element and is at most every element |
| Build.MaxOf | clustering/tree_functions.py:48 | the maximum is an element and is at least every element |
| Build.Normalised | clustering/tree_functions.py:48 | `1-(x-min)/(max-min)` lies in [0, 1], is 0 for the best score and 1 for the worst |
| Build.Inverted | clustering/tree_functions.py:48 | the inverted scaling of [lo, hi] onto [0, 1] maps hi to 0 and lo to 1 |
| Build.NormalisedReversesOrder | clustering/tree_functions.py:48 | a higher score gives a strictly smaller dissimilarity |
| Build.IndexOf | clustering/tree_functions.py:50-52 | the position of the first occurrence of an id in a column |
| Build.Unique | clustering/tree_functions.py:50-52 | `unique` keeps exactly the elements of its input, each once, in order of first appearance, and is no longer than its input |
| Build.RowStartClosedForm | clustering/tree_functions.py:57-63 | row i of an m x m triangle starts at score number i*(2m+1-i)/2, which is `i*m - i*(i-1)/2` |
| Build.RowStartTotal | clustering/tree_functions.py:57-63 | the triangle holds m(m+1)/2 scores |
| Build.RowStartMonotone | clustering/tree_functions.py:57-63 | later rows start at least (k - i) scores further on |
| Build.ScoreIndexOrder | clustering/tree_functions.py:57-63 | the score index grows strictly in row-major order over the cells j >= i and stays below m(m+1)/2, so each score fills at most one cell |
| Build.Triangle | clustering/tree_functions.py:56-63 | the built matrix is m x m with the value TriangleCell in every cell |
| Build.TriangleShape | clustering/tree_functions.py:56-63 | the built matrix has the sentinel below the diagonal and every cell with j >= i in [0, 1] |
| Build.FillTriangle | clustering/tree_functions.py:54-63 | the nested loop fills a fresh m x m array whose value is Triangle: score number RowStart(i)+(j-i) at (i, j) for j >= i, and the sentinel elsewhere |
| Build.Align2Mat | clustering/tree_functions.py:29-64 | the matrix is m x m with m the number of distinct first-column ids; the entity order is those ids followed by the last distinct second-column id; the value is Triangle of the combined scores |
| Reduction.Reduce | clustering/tree_functions.py:94-111 | the reduced matrix is (n-1) x (n-1), with the value the update loops write in every cell |
| Reduction.FillReduced | clustering/tree_functions.py:92-111 | the loops shared by both updates fill a fresh (n-1) x (n-1) array whose value is Reduce of the old matrix (lines 148-167 for NJ) |
| Reduction.OldEntity | clustering/tree_functions.py:101-111 | after entity col+1 is removed, entities up to col keep their number and later ones shift down by one |
| Reduction.ReduceKeepsOtherPairs | clustering/tree_functions.py:101-111 | when row <= col, every pair of entities other than the merged cluster keeps its old dissimilarity under the re-indexing |
| Reduction.ReduceMergedPairs | clustering/tree_functions.py:95-107 | when row <= col, the merged cluster's dissimilarity to entity k is the mean of k's old dissimilarities to entities row and col+1, less c/2 (c = 0 for UPGMA, mat[row][col] for NJ) |
| Reduction.ReduceLowerIsSentinel | clustering/tree_functions.py:92 | the reduced matrix again has the sentinel below its diagonal |
| Reduction.ReduceKeepsUnitRange | clustering/tree_functions.py:94-111 | under UPGMA with row <= col, cells in [0, 1] stay in [0, 1] after the reduction |
| Reduction.UpdateMatUpgma | clustering/tree_functions.py:67-112 | returns the first minimum, half of its value as min_dis, and a fresh matrix whose value is Reduce with plain means |
| Reduction.RTotalAsScans | clustering/tree_functions.py:179-189 | the row and column scans of get_r_mat for entity k (row 0 whole, the last column, or a row tail plus a column head) add up to the sum of k's dissimilarities to every other entity |
| Reduction.RTotals | clustering/tree_functions.py:176-191 | there are n+1 totals, and total k is the sum of Dist(k, e) over every entity e other than k |
| Reduction.GetRMat | clustering/tree_functions.py:176-191 | the loops return exactly RTotals of the matrix |
| Reduction.QMatrix | clustering/tree_functions.py:194-201 | every cell with j >= i is the pair's dissimilarity less the two totals over n-1, and every cell below the diagonal is the sentinel |
| Reduction.GetMMat | clustering/tree_functions.py:194-201 | the loops fill a fresh n x n array whose value is QMatrix |
| Reduction.NjLengths | clustering/tree_functions.py:140-146 | the two lengths add up to mat[row][col]; for n == 1 they are equal halves; otherwise they differ by (r[row]-r[col+1])/(n-1) |
| Reduction.Clamp | clustering/tree_functions.py:168-172 | a negative length becomes exactly 0.01, any other is kept, and the result is non-negative |
| Reduction.UpdateMatNj | clustering/tree_functions.py:115-173 | for n == 1 it selects (0, 0); otherwise it selects the first minimum of QMatrix; the lengths are the clamped NjLengths; the new matrix is Reduce with the NJ correction |
| Names.ScanCountsNet | clustering/tree_functions.py:282-287 | get_num_bra's running counter is the number of '(' less the number of ')' |
| Names.DepthIsDeepestClose | clustering/tree_functions.py:277-288 | the depth is at least the bracket count before every ')', and equals it before some ')' (or is 0): the maximum nesting depth |
| Names.DepthOfLeafAndPair | clustering/tree_functions.py:277-288 | a bare id has depth 0 and `(a,b)` of bare ids has depth 1 |
| Names.Depth | clustering/tree_functions.py:277-288 | get_num_bra's result; a text without ')' has depth 0 |
| Names.GetNumBra | clustering/tree_functions.py:277-288 | the counting loop returns Depth |
| Names.ScanOfTree | clustering/tree_functions.py:282-287 | scanning a cluster's name keeps the open count and raises the deepest count to the count before it plus the cluster's height |
| Names.DepthOfTree | clustering/tree_functions.py:277-288 | get_num_bra of a cluster's name is the cluster's height |
| Names.RenderEnd | clustering/get_clusters.py:60-62 | a merged cluster's name ends in ')', a leaf's does not |
| Names.RemoveBrackets | clustering/tree_functions.py:295-296 | removing the brackets never lengthens the text |
| Names.RemoveBracketsMeaning | clustering/tree_functions.py:295-296 | no bracket survives the two replaces, and a text without brackets is returned unchanged |
| Names.TakeUntilComma | clustering/tree_functions.py:298-304 | a comma-free prefix that ends at the end of the text or at its first comma |
| Names.GetFirstPro | clustering/tree_functions.py:292-305 | get_1st_pro returns the prefix of the bracket-free text up to its first comma, so its result holds no '(' ')' ',' |
| Names.FirstProIsFirstLeaf | clustering/tree_functions.py:292-305 | get_1st_pro's result is the first leaf get_xticklabel lists |
| Names.FirstLeafOfTree | clustering/tree_functions.py:292-305 | get_1st_pro of a cluster's name is the cluster's first leaf, which starts with 'p' |
| Names.Split | clustering/tree_functions.py:681-687 | `split(',')` gives at least one piece |
| Names.SplitPiecesPlain | clustering/tree_functions.py:681-687 | no piece between commas holds a comma |
| Names.JoinSplit | clustering/tree_functions.py:681-687 | joining the pieces with commas gives the text back |
| Names.SplitJoin | clustering/tree_functions.py:681-687 | splitting comma-free pieces joined with commas gives the pieces back |
| Names.SplitCount | clustering/tree_functions.py:675-688 | there is one piece more than there are commas |
| Names.SplitConcat | clustering/tree_functions.py:681-687 | splitting x + "," + y gives x's pieces followed by y's |
| Names.GetXTickLabel | clustering/tree_functions.py:675-688 | the scanning loop returns Leaves: the pieces of the bracket-free text |
| Names.LeavesOfLeaf | clustering/tree_functions.py:675-688 | a bare id is its own only leaf |
| Names.LeavesOfBracket | clustering/tree_functions.py:241 | the leaves of `(a,b)` are a's leaves followed by b's |
| Names.TakeUntilColon | clustering/tree_functions.py:246 | the prefix of a piece before its first ':', holding no ':'; the whole piece when it has none |
| Names.TakeUntilColonOfPlain | clustering/tree_functions.py:246 | a piece without ':' is its own id |
| Names.TakeUntilColonAnnotated | clustering/tree_functions.py:246 | a branch length written after ':' does not change the id read off a piece |
| Names.CutPieces | clustering/tree_functions.py:246 | each piece cut at its first ':', one id per piece |
| Names.CutPiecesConcat | clustering/tree_functions.py:246 | cutting the pieces commutes with concatenation |
| Names.SplitExtend | clustering/tree_functions.py:681-687 | text without a comma appended to a text extends its last piece |
| Names.ExtendLastTwice | clustering/tree_functions.py:681-687 | extending the last piece twice extends it by both texts |
| Names.NewickIdsOfLeaf | clustering/get_clusters.py:22 | a bare id without ':' names itself |
| Names.NewickIdsOfSide | clustering/tree_functions.py:246 | a side followed by ':' and a delimiter-free length names the ids of the side |
| Names.NewickIdsOfAnnotated | clustering/tree_functions.py:246 | the fragment `(a:la,b:lb)` names a's ids followed by b's, for delimiter-free lengths (also lines 262, 343, 370, 398, 425, 458, 489) |
| Names.AddP | clustering/tree_functions.py:691-697 | every id gets a leading 'p', in order, and the rest of each prefixed id is the id |
| Names.NatText | clustering/tree_functions.py:317 | `str` of a layer index is a nonempty string of decimal digits |
| Names.FirstP | clustering/tree_functions.py:269-273 | the position of a 'p', with no 'p' before it |
| Names.GetProNameNoNum | clustering/tree_functions.py:267-274 | the loop returns the index of the first 'p' |
| Names.StripLayerIndex | clustering/tree_functions.py:313-317 | a reference made of an index's digits and a 'p'-prefixed name does not start with 'p', and cutting it at its first 'p' gives the name back |
| Ledger.Remove | clustering/get_clusters.py:41-42 | `pop(k)` keeps the entries before k and shifts the later ones down by one |
| Ledger.AppendAt | clustering/tree_functions.py:331-340 | a new layer is added only when d is the layer count |
| Ledger.AppendAtAppendsOne | clustering/tree_functions.py:331-334 | one entry is appended at the end of layer d (a fresh layer when d is the layer count), and every other layer is unchanged |
| Ledger.AppendedOneTotal | clustering/tree_functions.py:243-245 | appending one entry adds one to the ledger's total size |
| Ledger.AppendAtLockstep | clustering/tree_functions.py:337-340 | appending at the same layer of the label and length ledgers keeps them the same shape |
| Ledger.EntryKey | clustering/tree_functions.py:311-315 | a reference has a key exactly when it is nonempty and holds a 'p'; the key starts with 'p' |
| Ledger.PrelayerScanMeaning | clustering/tree_functions.py:310-317 | the scan fails exactly when some entry has no leaf key; otherwise it holds the last entry whose key matches, or none when no key matches |
| Ledger.PrelayerLookup | clustering/tree_functions.py:316-318 | a successful lookup returns the index of the LAST entry of the layer, as the loop variable is returned after the loop |
| Ledger.PrelayerLookupMeaning | clustering/tree_functions.py:308-318 | the lookup succeeds exactly when every entry has a key and some key is the leaf sought; the reference returned is the last matching entry's index digits followed by the leaf |
| Ledger.GetNumPrelayer | clustering/tree_functions.py:308-318 | the loop returns PrelayerLookup |
| Ledger.CompositeLookup | clustering/tree_functions.py:326-329 | a successful lookup has a depth that is an existing layer number (1 to the layer count), and its index is the last position of layer depth-1 |
| Ledger.LookupInRange | clustering/tree_functions.py:342 | the index a successful lookup returns is an existing entry of the length ledger's layer depth-1 |
| Ledger.SideLength | clustering/tree_functions.py:342 | a composite side's UPGMA length is min_dis less the last length of layer depth-1 (also lines 397 and 456-457) |
| Ledger.MaxDepth | clustering/tree_functions.py:443 | the larger of the two depths |
| Ledger.LookupComposite | clustering/tree_functions.py:326-329 | the bracket count and the lookup in the layer before it give exactly Depth and CompositeLookup |
| Ledger.MergeKeepsShape | clustering/tree_functions.py:241-245 | a merge keeps the two name lists the same length, every name nonempty and the ledgers the same shape, and leaves every other length layer unchanged |
| Ledger.TreeBook.FirstUpgma | clustering/get_clusters.py:20-42 | after the first UPGMA merge, name_all is the prefixed ids with the pair bracketed at row and col+1 removed; the fragment carries min_dis on both sides; labels is `[[[pre, post]]]` and distances is `[[min_dis]]` |
| Ledger.TreeBook.FirstNj | clustering/get_clusters.py:20-42 | the same for NJ, with the two NJ lengths and the two length ledgers |
| Ledger.TreeBook.Record | clustering/tree_functions.py:241-247 | writes only slot row of both name lists and appends one entry to layer d of each ledger; the total grows by one |
| Ledger.TreeBook.SingleSingleUpgma | clustering/tree_functions.py:204-248 | layer 0 gets [pre, post] and min_dis; the fragment carries min_dis/2 on both sides |
| Ledger.TreeBook.SingleSingleNj | clustering/tree_functions.py:251-264 | layer 0 gets [pre, post] and the two NJ lengths |
| Ledger.TreeBook.SingleCompUpgma | clustering/tree_functions.py:321-345 | succeeds exactly when the composite's lookup does, and changes nothing otherwise; the entry goes to the composite's depth; the leaf side carries min_dis and the composite side min_dis less distances[d-1][last index] |
| Ledger.TreeBook.SingleCompNj | clustering/tree_functions.py:348-372 | as SingleCompUpgma, with the two NJ lengths written as they are |
| Ledger.TreeBook.CompSingleUpgma | clustering/tree_functions.py:375-400 | the mirror image of SingleCompUpgma |
| Ledger.TreeBook.CompSingleNj | clustering/tree_functions.py:403-427 | the mirror image of SingleCompNj |
| Ledger.TreeBook.CompCompUpgma | clustering/tree_functions.py:430-460 | succeeds exactly when both lookups do; the entry goes to the larger depth; each side carries min_dis less the length in its own layer |
| Ledger.TreeBook.CompCompNj | clustering/tree_functions.py:463-491 | succeeds exactly when both lookups do; the entry goes to the larger depth, with the two NJ lengths |
| Ledger.TreeBook.PopBoth | clustering/get_clusters.py:110-111 | both name lists lose exactly entry k; the ledgers are unchanged |
| Threshold.Flatten | clustering/tree_functions.py:583-586 | the flattened list has as many values as the ledger holds |
| Threshold.FlattenMembers | clustering/tree_functions.py:583-586 | a value is in the flattened list exactly when it is in some layer |
| Threshold.Insert | clustering/tree_functions.py:587 | inserting into a sorted list keeps it sorted and adds exactly the one value |
| Threshold.SortAsc | clustering/tree_functions.py:587 | `sort()` gives an ascending permutation of its input |
| Threshold.PyIndex | clustering/tree_functions.py:588-589 | Python's `xs[i]` reads position i, or n+i for negative i, and raises exactly when i is outside [-n, n) |
| Threshold.CutThreshold | clustering/tree_functions.py:588-590 | a defined threshold is the mean of two values of the list and lies between them |
| Threshold.ThresholdBetween | clustering/tree_functions.py:588-590 | for 2 <= K <= n the threshold is (s[n-K] + s[n-K+1])/2 and lies between them; the K-1 largest values are at or above it and the rest at or below |
| Threshold.ThresholdOfOne | clustering/tree_functions.py:588-590 | for K = 1 the threshold averages the largest and the smallest value |
| Threshold.ThresholdDefined | clustering/tree_functions.py:588-589 | the threshold fails exactly when -K or -K+1 is out of range |
| Threshold.GetSimilarityClust | clustering/tree_functions.py:575-591 | the flattening loops, the sort and the two reads give SimilarityThreshold |
| Clusters.ParseMethod | clustering/get_clusters.py:11-18 | UPGMA exactly for "upgma"; any other string runs NJ |
| Clusters.MergeLayer | clustering/get_clusters.py:59-109 | the layer written is 0 for two leaves, the composite's depth for a leaf and a composite, and the larger depth for two composites |
| Clusters.LookupsSucceedNeedsLayer | clustering/tree_functions.py:326-334 | a merge of two leaves needs no lookup; a successful merge writes to an existing or the next layer, and a composite side has depth at least 1 |
| Clusters.IsComposite | clustering/get_clusters.py:60-62 | a name ending in ')' is a composite: never a bracket-free id, always a bracketed pair |
| Clusters.AfterMerge | clustering/get_clusters.py:54-111 | the lists after one loop pass: the names merged at (row, col+1), and the ledger with MergeEntry appended at MergeLayer |
| Clusters.Dispatch | clustering/get_clusters.py:49-109 | the last character ')' marks a composite, and the matching merge function runs; it succeeds exactly when its lookups do, and changes nothing otherwise; on success name row becomes `(pre,post)`, its Newick fragment is MergeNewick, the labels get MergeEntry at layer MergeLayer, and the length ledgers get min_dis (UPGMA) or d1 and d2 (NJ) at that layer |
| Clusters.DispatchUpgma | clustering/get_clusters.py:59-104 | the UPGMA half of Dispatch: the entry and min_dis at MergeLayer, and the fragment with UpgmaSide's length on each side |
| Clusters.DispatchNj | clustering/get_clusters.py:59-109 | the NJ half of Dispatch: the entry, d1 and d2 at MergeLayer, and the fragment with d1 and d2 |
| Clusters.Merged | clustering/get_clusters.py:29-42 | a merge leaves one name fewer |
| Clusters.Prefixed | clustering/tree_functions.py:691-697 | each id with a leading 'p' |
| Clusters.FlatLeavesOfPlain | clustering/tree_functions.py:691-697 | a list of bare ids is its own list of leaves |
| Clusters.MergeKeepsFlat | clustering/get_clusters.py:29-42 | writing at row a text whose pieces are those of row followed by those of c, then popping c (row < c), keeps the multiset of all the pieces |
| Clusters.MergeKeepsLeaves | clustering/get_clusters.py:29-41 | bracketing names row < c at row and popping c keeps the multiset of leaves |
| Clusters.FirstLeaves | clustering/get_clusters.py:20-42 | after the first merge of bare ids, the leaves are the prefixed ids |
| Clusters.UpdateStep | clustering/get_clusters.py:49-52 | the strategy's update; under UPGMA the pair has row <= col and the new matrix keeps the sentinel below the diagonal and [0, 1] above it |
| Clusters.IdsArePlain | clustering/tree_functions.py:50-52 | ids drawn from delimiter-free columns are delimiter-free |
| Clusters.FirstUpdate | clustering/get_clusters.py:9-18 | align2mat and the first update give an (n-2) x (n-2) matrix and a pair with row, col < n-1 |
| Clusters.FirstMerge | clustering/get_clusters.py:9-42 | the pair selected is what the strategy's update selects in align2mat's matrix (StepValues), the new matrix is that matrix reduced at the pair, and the lists are FirstLists: name_all is the prefixed ids merged at (row, col+1), name_distances holds the annotated fragment at row with col+1 popped, labels is `[[[pre, post]]]`, and the lengths are `[[min_dis]]` (UPGMA) or `[[min_dis1]]` and `[[min_dis2]]` (NJ) |
| Clusters.StartBook | clustering/get_clusters.py:20-42 | the lists are exactly FirstLists of the ids and the selected pair under the strategy chosen, with one ledger entry |
| Clusters.MergeAndPop | clustering/get_clusters.py:54-111 | when the lookups succeed, the merge function and the two pops leave exactly AfterMerge of the old lists |
| Clusters.LoopStep | clustering/get_clusters.py:47-111 | when every lookup among the names succeeds, the pair selected is what the strategy's update selects in the current matrix (StepValues), the new matrix is the old one reduced at that pair, and all the lists (name_all, name_distances, labels and the length ledgers) become AfterMerge of the old ones; under UPGMA row <= col and the matrix shape is kept |
| Clusters.SideOfTree | clustering/get_clusters.py:60-62 | a traced name is composite exactly when its tree is merged; its bracket depth is the tree's height; its lookup succeeds; its recorded reference is keyed by the tree's first leaf |
| Clusters.LookupOfTree | clustering/tree_functions.py:326-329 | get_num_prelayer finds a traced merged cluster in layer height-1 by its first leaf |
| Clusters.LayerLookupKey | clustering/tree_functions.py:308-318 | in a layer whose entries all have keys, looking up a key some entry has succeeds and returns a reference with that key |
| Clusters.KeyedAppend | clustering/tree_functions.py:331-334 | appending an entry whose first reference has a key keeps every entry keyed |
| Clusters.TracedOneGrows | clustering/tree_functions.py:331-334 | appending an entry keeps what the ledger recorded of a cluster |
| Clusters.RecordedGrows | clustering/tree_functions.py:331-334 | appending an entry keeps an entry the ledger recorded |
| Clusters.TracedStep | clustering/get_clusters.py:54-111 | a merge of two traced names has lookups that succeed, and the merged names, the merged trees and the grown ledger are traced again |
| Clusters.TracedLookups | clustering/get_clusters.py:54-109 | the lookups of a merge of two traced names succeed, and its layer exists or is the next one |
| Clusters.TracedLookupsAll | clustering/get_clusters.py:54-109 | for traced names, every merge of two of them has lookups that succeed |
| Clusters.TracedMerge | clustering/get_clusters.py:54-111 | the names and the ledger a merge leaves are traced |
| Clusters.TracedRemove | clustering/get_clusters.py:110-111 | popping a name and its tree keeps the rest traced |
| Clusters.TracedStart | clustering/get_clusters.py:20-42 | after the first merge of bare ids, the names and the one-entry ledger are traced |
| Clusters.Pass | clustering/get_clusters.py:46-111 | one pass keeps the loop invariant Pending with one size less: the record gains the pass, whose matrix step (StepValues and Reduce) and list step (AfterMerge of all the lists) hold and chain from the last recorded matrix and lists to the new ones; the names are the recorded merges applied in turn and stay traced; the ledger has one entry more |
| Clusters.WindowAt | clustering/get_clusters.py:46-111 | pass i of a record sees matrix i and lists i before it, matrix i+1 and lists i+1 after it, and step i |
| Clusters.RunStep | clustering/get_clusters.py:46-111 | every recorded pass i of a run is a pass over a matrix of size n0-i |
| Clusters.RunListStep | clustering/get_clusters.py:54-111 | the lists after recorded pass i are AfterMerge of those before it, and its lookups succeed |
| Clusters.RunSnoc | clustering/get_clusters.py:46-111 | a run extended by one more valid pass is a run |
| Clusters.StepOkSnoc | clustering/get_clusters.py:46-111 | extending a record leaves what its earlier passes say unchanged |
| Clusters.StepOkLast | clustering/get_clusters.py:46-111 | a pass appended to a record reads back as its last pass |
| Clusters.Pairs | clustering/get_clusters.py:54-57 | one merged pair (row, col+1) per recorded step, in order |
| Clusters.PairsSnoc | clustering/get_clusters.py:54-57 | the pairs of one more step are the old pairs followed by its pair |
| Clusters.RecordPass | clustering/get_clusters.py:46-111 | appending a valid pass to a run gives a run whose names are the recorded merges applied in turn, ascending under UPGMA |
| Clusters.TracedPass | clustering/get_clusters.py:54-111 | the clusters of a pass's selected pair are merged and the names, merged trees and grown ledger stay traced |
| Clusters.FinalTree | clustering/get_clusters.py:29-125 | for a run from FirstLists whose merges all have row <= col, the one name left has each prefixed id as a leaf (once when the ids are distinct), and the ids read off the one Newick text are exactly the ids (each once when the ids are distinct) |
| Clusters.NewickOfRun | clustering/get_clusters.py:33-125 | the one Newick text a run with ascending merges leaves names exactly the ids of the first merge |
| Clusters.RunKeepsNewickIds | clustering/get_clusters.py:46-111 | every pass of a run with row <= col keeps the multiset of ids the Newick fragments name |
| Clusters.MergeKeepsNewickIds | clustering/tree_functions.py:246 | a merge with row <= col keeps the multiset of ids the Newick fragments name, whichever of the eight merge functions builds the fragment (also lines 262, 343, 370, 398, 425, 458, 489) |
| Clusters.FlatNewickIdsOfPlain | clustering/get_clusters.py:22 | the initial name_distances, the bare ids, name exactly themselves |
| Clusters.FirstNewickIds | clustering/get_clusters.py:26-42 | after the first merge, the Newick fragments name exactly the ids |
| Clusters.ApplyMergesKeepsLeaves | clustering/get_clusters.py:46-111 | any sequence of merges with row < c keeps the multiset of leaves |
| Clusters.ApplyMergesSnoc | clustering/get_clusters.py:46-111 | one more merge, as the loop performs it |
| Clusters.AscendingSnoc | clustering/get_clusters.py:46-111 | a merge with row < c after merges with row < c keeps them all ascending |
| Clusters.MergeRest | clustering/get_clusters.py:44-111 | for traced names no merge raises; the loop leaves exactly one name, adds one ledger entry per pass, and returns a record that is a Run: it starts at the given matrix and lists, ends at the final lists, and each of its passes is a Transition over the matrix of size n0-i |
| Clusters.FinishLoop | clustering/get_clusters.py:44-124 | from the lists after the first merge, no merge raises; the record of the loop is a Run from the given matrix and lists to the final ones; one name and one Newick fragment are left, which is the text returned; the ledger holds n-1 entries and the names are the recorded merges applied in turn |
| Clusters.FinishTree | clustering/get_clusters.py:44-125 | from the lists after the first merge, no merge raises; the record of the loop is a Run from the given matrix and lists to the final ones; one name and one Newick fragment are left, which is the text returned; the ledger holds n-1 entries; `upper` holds exactly when every merge had row <= col, which UPGMA guarantees, and then the final name's leaves are the prefixed ids and the ids read off the Newick text are the ids |
| Clusters.GetTreeFile | clustering/get_clusters.py:9-125 | no merge raises; the first pair is what the first update selects in align2mat's matrix, and every later pass, recorded in a Run, selects by StepValues, reduces the matrix by Reduce and updates all the lists by AfterMerge, from FirstLists to the final lists; n-1 merges leave one name and the Newick text `name_distances[0]`; under UPGMA the final name's leaves are exactly the prefixed ids, and, for ids without ':' and lengths whose text holds no delimiter, the ids read off the Newick text are exactly the ids, each once when the ids are distinct |
| Clusters.TreeLeaves | clustering/get_clusters.py:29-111 | the first merge followed by merges with row < c leaves the prefixed ids as the final name's leaves |
| Clusters.FinalLeaves | clustering/get_clusters.py:110-111 | with one name left, its leaves are the whole multiset, each distinct id once |
| Clusters.PrefixedOnce | clustering/tree_functions.py:691-697 | distinct ids have distinct prefixed forms, each occurring once |

## Left out

- Reading the pairwise score CSV (`pd.read_csv`). The columns are inputs.
- Writing the `.nwk` file, creating its directory, and the plotting
  branch. All three are I/O. The plotting branch's
  `if method = 'upgma'` is also a syntax error. The model returns the
  Newick text instead.
- The rendering functions are not modelled: `plot_tree`,
  `get_plot_color`, `get_xcut`, `align_name_num`, `not_in_last_layer`
  and `get_random_colors`. They are matplotlib layout and randomness.
- The warning `print` for an unknown method name is I/O. The NJ path
  that follows it is modelled.
- Python's `str()` of a float is the parameter `numText`. Floating-point
  rounding is not modelled; arithmetic is exact over `real`.
- Build.Align2Mat:
  - The input conditions the program never checks are preconditions:
    enough table rows for the triangle, and max > min. At max == min
    the program divides by zero at line 48 and goes on silently with
    a matrix of NaN values; the model excludes that input.
  - The 'long' and 'short' list-building loops are the pure
    `CombinedScores`.
- Clusters.GetTreeFile:
  - Ids without '(', ')' and ',' are a precondition. The program never
    checks them.
  - The Newick text is read back (`NewickIds`: brackets removed, split
    at ',', each piece cut at its first ':') under two conditions that
    the program does not check. No id may hold ':'. Python's `str` of a
    length must hold no '(', ')' or ',', which `PlainText` states of the
    parameter `numText`. The property is also stated only when every
    merge had row <= col (`upper`), as for the leaves.
  - The leaves property is proved for UPGMA only. That proof needs
    row <= col at every step, and the sentinel guarantees this only
    when every meaningful cell is below 1.0001. UPGMA keeps cells in
    [0, 1]. NJ's criterion matrix can exceed the sentinel, and then
    argmin can fall below the diagonal. The ghost flag `upper` records
    whether every step had row <= col.
- Ledger.CompositeLookup treats depth 0 as a failure. The program would
  read `labels[-1]` there. A name ending in ')' built from
  delimiter-free ids always has depth at least 1.
- The UPGMA composite merges read `distances[d-1]` before appending to
  layer d, where the program reads it after. Layer d-1 is never the
  layer appended to, so the value is the same.
- Clusters.MergeRest counts its passes down by the matrix size. The
  program counts up with `iloop` and uses the size `len_mat - iloop`.
  The two give the same sequence of sizes.
- get_lists.py, get_alignments.py, the main scripts and setup.py are not
  part of this model. They list files, shell out to an external
  aligner, and package the project.
