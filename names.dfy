/** The string helpers of the merge bookkeeping.  A cluster is written as
    nested text: a leaf is its id with a leading 'p', a merged cluster is
    "(" + left + "," + right + ")".  Each helper is a scanning loop, stated
    against a pure definition whose properties are proved here. */
module Names {

  predicate NoBrackets(s: string)
  {
    forall k | 0 <= k < |s| :: s[k] != '(' && s[k] != ')'
  }

  predicate NoComma(s: string)
  {
    forall k | 0 <= k < |s| :: s[k] != ','
  }

  /** An entity id may not contain a structural delimiter. */
  predicate NoDelimiters(s: string)
  {
    NoBrackets(s) && NoComma(s)
  }

  /** The plain name of a merge. */
  function Bracket(a: string, b: string): string
  {
    "(" + a + "," + b + ")"
  }

  /** The Newick fragment of a merge: both sides with their branch length. */
  function Annotated(a: string, la: string, b: string, lb: string): string
  {
    "(" + a + ":" + la + "," + b + ":" + lb + ")"
  }

  // ---------------------------------------------------------------------
  // get_num_bra

  /** The two counters of get_num_bra after scanning s: the open bracket
      count and the deepest count seen at a closing bracket. */
  function BracketScan(s: string): (r: (int, int))
    ensures r.1 >= 0
  {
    if |s| == 0 then (0, 0)
    else
      var p := BracketScan(s[..|s| - 1]);
      var ch := s[|s| - 1];
      if ch == '(' then (p.0 + 1, p.1)
      else if ch == ')' then (p.0 - 1, if p.1 >= p.0 then p.1 else p.0)
      else p
  }

  /** get_num_bra's result; a text without a closing bracket has depth 0. */
  function Depth(s: string): (d: nat)
    ensures ')' !in s ==> d == 0
  {
    NoCloseScan(s);
    BracketScan(s).1
  }

  /** Without a closing bracket the deepest count stays 0. */
  lemma {:induction false} NoCloseScan(s: string)
    ensures ')' !in s ==> BracketScan(s).1 == 0
  {
    if |s| > 0 && ')' !in s {
      assert s[..|s| - 1] <= s;
      NoCloseScan(s[..|s| - 1]);
    }
  }

  /** Opening minus closing brackets. */
  function Net(s: string): int
  {
    (multiset(s)['('] as int) - (multiset(s)[')'] as int)
  }

  lemma {:induction false} ScanCountsNet(s: string)
    ensures BracketScan(s).0 == Net(s)
  {
    if |s| > 0 {
      var p := s[..|s| - 1];
      assert s == p + [s[|s| - 1]];
      ScanCountsNet(p);
    }
  }

  /** The depth is the largest bracket count met just before a closing
      bracket (or 0 when there is none): the maximum nesting depth. */
  lemma {:induction false} DepthIsDeepestClose(s: string)
    ensures forall i | 0 <= i < |s| && s[i] == ')' :: Net(s[..i]) <= Depth(s)
    ensures Depth(s) == 0 || exists i | 0 <= i < |s| :: s[i] == ')' && Net(s[..i]) == Depth(s)
  {
    if |s| > 0 {
      var p := s[..|s| - 1];
      DepthIsDeepestClose(p);
      ScanCountsNet(p);
      forall i | 0 <= i < |s| && s[i] == ')' ensures Net(s[..i]) <= Depth(s) {
        if i < |p| {
          assert s[..i] == p[..i];
        } else {
          assert s[..i] == p;
        }
      }
      if Depth(s) != 0 {
        if Depth(s) == Depth(p) {
          var i :| 0 <= i < |p| && p[i] == ')' && Net(p[..i]) == Depth(p);
          assert s[..i] == p[..i];
        } else {
          assert s[..|s| - 1] == p;
        }
      }
    }
  }

  lemma {:induction false} ScanSkipsPlain(p: string, t: string)
    requires NoBrackets(t)
    ensures BracketScan(p + t) == BracketScan(p)
  {
    if |t| > 0 {
      var t' := t[..|t| - 1];
      assert (p + t)[..|p + t| - 1] == p + t';
      assert (p + t)[|p + t| - 1] == t[|t| - 1];
      assert t[|t| - 1] != '(' && t[|t| - 1] != ')';
      assert BracketScan(p + t) == BracketScan(p + t');
      ScanSkipsPlain(p, t');
    } else {
      assert p + t == p;
    }
  }

  /** A leaf has depth 0 and a merge of two leaves depth 1. */
  lemma DepthOfLeafAndPair(a: string, b: string)
    requires NoBrackets(a) && NoBrackets(b)
    ensures Depth(a) == 0
    ensures Depth(Bracket(a, b)) == 1
  {
    ScanSkipsPlain("", a);
    assert "" + a == a;
    var s := Bracket(a, b);
    assert s[..|s| - 1] == "(" + (a + "," + b);
    ScanSkipsPlain("(", a + "," + b);
    assert "("[..0] == "";
  }

  /** get_num_bra. */
  method GetNumBra(s: string) returns (countMax: nat)
    ensures countMax == Depth(s)
  {
    countMax := 0;
    var countBra := 0;
    for k := 0 to |s|
      invariant (countBra, countMax as int) == BracketScan(s[..k])
    {
      assert s[..k + 1][..k] == s[..k];
      if s[k] == '(' {
        countBra := countBra + 1;
      } else if s[k] == ')' {
        countMax := if countMax >= countBra then countMax else countBra;
        countBra := countBra - 1;
      }
    }
    assert s[..|s|] == s;
  }

  // ---------------------------------------------------------------------
  // Removing brackets, get_1st_pro, get_xticklabel

  /** `replace('(', '')` followed by `replace(')', '')`. */
  function RemoveBrackets(s: string): (t: string)
    ensures |t| <= |s|
  {
    if |s| == 0 then ""
    else (if s[0] == '(' || s[0] == ')' then "" else [s[0]]) + RemoveBrackets(s[1..])
  }

  /** No bracket survives, and a text without brackets is kept as it is. */
  lemma {:induction false} RemoveBracketsMeaning(s: string)
    ensures NoBrackets(RemoveBrackets(s))
    ensures NoBrackets(s) ==> RemoveBrackets(s) == s
  {
    if |s| > 0 {
      RemoveBracketsMeaning(s[1..]);
      var head := if s[0] == '(' || s[0] == ')' then "" else [s[0]];
      assert RemoveBrackets(s) == head + RemoveBrackets(s[1..]);
      if NoBrackets(s) {
        assert NoBrackets(s[1..]) by {
          forall k | 0 <= k < |s[1..]| ensures s[1..][k] != '(' && s[1..][k] != ')' {
            assert s[1..][k] == s[k + 1];
          }
        }
        assert s == [s[0]] + s[1..];
      }
    }
  }

  lemma {:induction false} RemoveBracketsConcat(a: string, b: string)
    ensures RemoveBrackets(a + b) == RemoveBrackets(a) + RemoveBrackets(b)
  {
    if |a| > 0 {
      assert (a + b)[1..] == a[1..] + b;
      RemoveBracketsConcat(a[1..], b);
    } else {
      assert a + b == b;
    }
  }

  /** The text up to the first comma. */
  function TakeUntilComma(t: string): (r: string)
    ensures NoComma(r) && r <= t
    ensures |r| == |t| || t[|r|] == ','
  {
    if |t| == 0 || t[0] == ',' then "" else [t[0]] + TakeUntilComma(t[1..])
  }

  /** get_1st_pro: the first id of a nested name. */
  method GetFirstPro(pro: string) returns (first: string)
    ensures first <= RemoveBrackets(pro)
    ensures NoDelimiters(first)
    ensures |first| == |RemoveBrackets(pro)| || RemoveBrackets(pro)[|first|] == ','
  {
    var noBra := RemoveBrackets(pro);
    RemoveBracketsMeaning(pro);
    first := "";
    var k := 0;
    while k < |noBra|
      invariant 0 <= k <= |noBra|
      invariant first == noBra[..k] && NoComma(first)
    {
      if noBra[k] != ',' {
        first := first + [noBra[k]];
        k := k + 1;
      } else {
        break;
      }
    }
  }

  /** The pieces between commas (`str.split(',')`). */
  function Split(t: string): (ps: seq<string>)
    ensures |ps| >= 1
  {
    if |t| == 0 then [""]
    else
      var ps := Split(t[..|t| - 1]);
      var ch := t[|t| - 1];
      if ch == ',' then ps + [""] else ps[..|ps| - 1] + [ps[|ps| - 1] + [ch]]
  }

  /** No piece holds a comma. */
  lemma {:induction false} SplitPiecesPlain(t: string)
    ensures forall k | 0 <= k < |Split(t)| :: NoComma(Split(t)[k])
  {
    if |t| > 0 {
      var p, ch := t[..|t| - 1], t[|t| - 1];
      SplitPiecesPlain(p);
      var ps := Split(p);
      if ch != ',' {
        var last := ps[|ps| - 1];
        assert NoComma(last + [ch]) by {
          assert NoComma(last);
        }
      }
    }
  }

  /** The pieces joined back with commas. */
  function Join(ps: seq<string>): string
    requires |ps| >= 1
  {
    if |ps| == 1 then ps[0] else Join(ps[..|ps| - 1]) + "," + ps[|ps| - 1]
  }

  lemma JoinExtendLast(ps: seq<string>, x: string, ch: char)
    requires |ps| >= 1
    ensures Join(ps[..|ps| - 1] + [x + [ch]]) == Join(ps[..|ps| - 1] + [x]) + [ch]
  {
    var init := ps[..|ps| - 1];
    if |ps| > 1 {
      assert (init + [x + [ch]])[..|ps| - 1] == init;
      assert (init + [x])[..|ps| - 1] == init;
    }
  }

  lemma JoinSnoc(ps: seq<string>, x: string)
    requires |ps| >= 1
    ensures Join(ps + [x]) == Join(ps) + "," + x
  {
    assert (ps + [x])[..|ps|] == ps;
  }

  /** Joining the pieces gives the text back. */
  lemma {:induction false} JoinSplit(t: string)
    ensures Join(Split(t)) == t
  {
    if |t| > 0 {
      var p, ch := t[..|t| - 1], t[|t| - 1];
      assert t == p + [ch];
      JoinSplit(p);
      JoinSplitStep(p, ch);
    }
  }

  lemma JoinSplitStep(p: string, ch: char)
    requires Join(Split(p)) == p
    ensures Join(Split(p + [ch])) == p + [ch]
  {
    var ps := Split(p);
    SplitSnoc(p, ch);
    if ch == ',' {
      JoinSnoc(ps, "");
    } else {
      JoinExtendLast(ps, ps[|ps| - 1], ch);
      assert ps[..|ps| - 1] + [ps[|ps| - 1]] == ps;
    }
  }

  /** Split extended by one character, as its definition reads. */
  lemma SplitSnoc(t: string, ch: char)
    ensures Split(t + [ch]) ==
      if ch == ',' then Split(t) + [""]
      else Split(t)[..|Split(t)| - 1] + [Split(t)[|Split(t)| - 1] + [ch]]
  {
    assert (t + [ch])[..|t + [ch]| - 1] == t;
  }

  /** Extending the last piece commutes with putting pieces in front. */
  lemma ExtendLastConcat(px: seq<string>, ps: seq<string>, ch: char)
    requires |ps| >= 1
    ensures var q := px + ps;
      q[..|q| - 1] + [q[|q| - 1] + [ch]] == px + (ps[..|ps| - 1] + [ps[|ps| - 1] + [ch]])
  {
    var q := px + ps;
    assert q[..|q| - 1] == px + ps[..|ps| - 1];
  }

  /** Pieces split off the text after a comma follow those before it. */
  lemma {:induction false} SplitConcat(x: string, y: string)
    ensures Split(x + "," + y) == Split(x) + Split(y)
  {
    if |y| == 0 {
      SplitSnoc(x, ',');
      assert x + "," + y == x + [','];
      assert Split(y) == [""];
    } else {
      var y', ch := y[..|y| - 1], y[|y| - 1];
      assert y == y' + [ch];
      assert x + "," + y == (x + "," + y') + [ch];
      SplitConcat(x, y');
      SplitConcatStep(x, y', ch);
    }
  }

  /** The step of SplitConcat: one more character after the comma. */
  lemma SplitConcatStep(x: string, y: string, ch: char)
    requires Split(x + "," + y) == Split(x) + Split(y)
    ensures Split((x + "," + y) + [ch]) == Split(x) + Split(y + [ch])
  {
    SplitSnoc(x + "," + y, ch);
    SplitSnoc(y, ch);
    if ch != ',' {
      ExtendLastConcat(Split(x), Split(y), ch);
    }
  }

  /** Splitting comma-free pieces joined with commas gives the pieces back. */
  lemma {:induction false} SplitJoin(ps: seq<string>)
    requires |ps| >= 1 && forall k | 0 <= k < |ps| :: NoComma(ps[k])
    ensures Split(Join(ps)) == ps
  {
    if |ps| == 1 {
      SplitOfPlain(ps[0]);
    } else {
      SplitJoin(ps[..|ps| - 1]);
      SplitConcat(Join(ps[..|ps| - 1]), ps[|ps| - 1]);
      SplitOfPlain(ps[|ps| - 1]);
    }
  }

  lemma {:induction false} SplitOfPlain(t: string)
    requires NoComma(t)
    ensures Split(t) == [t]
  {
    if |t| > 0 {
      SplitOfPlain(t[..|t| - 1]);
      assert t[..|t| - 1] + [t[|t| - 1]] == t;
    }
  }

  /** One piece more than there are commas. */
  lemma {:induction false} SplitCount(t: string)
    ensures |Split(t)| == multiset(t)[','] + 1
  {
    if |t| > 0 {
      var p := t[..|t| - 1];
      assert t == p + [t[|t| - 1]];
      SplitCount(p);
    }
  }

  /** The leaves of a nested name, in order (`get_xticklabel`). */
  function Leaves(s: string): seq<string>
  {
    Split(RemoveBrackets(s))
  }

  /** get_xticklabel. */
  method GetXTickLabel(name: string) returns (labels: seq<string>)
    ensures labels == Leaves(name)
  {
    var noBra := RemoveBrackets(name);
    labels := [];
    var single := "";
    for k := 0 to |noBra|
      invariant labels + [single] == Split(noBra[..k])
    {
      assert noBra[..k + 1][..k] == noBra[..k];
      if noBra[k] == ',' {
        labels := labels + [single];
        single := "";
      } else {
        single := single + [noBra[k]];
      }
    }
    labels := labels + [single];
    assert noBra[..|noBra|] == noBra;
  }

  /** A leaf's name is its only leaf. */
  lemma LeavesOfLeaf(x: string)
    requires NoDelimiters(x)
    ensures Leaves(x) == [x]
  {
    RemoveBracketsMeaning(x);
    SplitOfPlain(x);
  }

  /** The leaves of a merge are the left leaves followed by the right. */
  lemma LeavesOfBracket(a: string, b: string)
    ensures Leaves(Bracket(a, b)) == Leaves(a) + Leaves(b)
  {
    RemoveBracketsOfBracket(a, b);
    SplitConcat(RemoveBrackets(a), RemoveBrackets(b));
  }

  lemma RemoveBracketsOfBracket(a: string, b: string)
    ensures RemoveBrackets(Bracket(a, b)) == RemoveBrackets(a) + "," + RemoveBrackets(b)
  {
    var tail := "," + b + ")";
    var inner := a + tail;
    assert Bracket(a, b) == "(" + inner;
    assert ("(" + inner)[1..] == inner;
    assert RemoveBrackets(Bracket(a, b)) == RemoveBrackets(inner);
    RemoveBracketsConcat(a, tail);
    assert tail[1..] == b + ")";
    assert RemoveBrackets(tail) == "," + RemoveBrackets(b + ")");
    RemoveBracketsConcat(b, ")");
    assert RemoveBrackets(")") == "";
  }

  // ---------------------------------------------------------------------
  // Reading the ids off a Newick text

  /** The text before the first ':' (all of it when there is none). */
  function TakeUntilColon(t: string): (r: string)
    ensures r <= t && ':' !in r
    ensures |r| < |t| ==> t[|r|] == ':'
  {
    if |t| == 0 || t[0] == ':' then "" else [t[0]] + TakeUntilColon(t[1..])
  }

  /** A text without ':' is kept whole. */
  lemma {:induction false} TakeUntilColonOfPlain(t: string)
    requires ':' !in t
    ensures TakeUntilColon(t) == t
  {
    if |t| > 0 {
      assert t[0] in t;
      assert ':' !in t[1..] by {
        forall k | 0 <= k < |t| - 1 ensures t[1..][k] != ':' {
          assert t[1..][k] == t[k + 1];
        }
      }
      TakeUntilColonOfPlain(t[1..]);
    }
  }

  /** A length annotation after a piece does not change its id. */
  lemma {:induction false} TakeUntilColonAnnotated(p: string, len: string)
    ensures TakeUntilColon(p + ":" + len) == TakeUntilColon(p)
  {
    if |p| > 0 {
      assert (p + ":" + len)[1..] == p[1..] + ":" + len;
      TakeUntilColonAnnotated(p[1..], len);
    }
  }

  /** Each piece cut at its first ':'. */
  function CutPieces(ps: seq<string>): (ids: seq<string>)
    ensures |ids| == |ps| && forall k | 0 <= k < |ps| :: ids[k] == TakeUntilColon(ps[k])
  {
    seq(|ps|, k requires 0 <= k < |ps| => TakeUntilColon(ps[k]))
  }

  /** The ids a Newick text names: the pieces between commas of its
      bracket-free form, each cut at its first ':', so that every branch
      length after an id is dropped. */
  function NewickIds(s: string): seq<string>
  {
    CutPieces(Split(RemoveBrackets(s)))
  }

  /** Text without a comma extends the last piece. */
  lemma {:induction false} SplitExtend(t: string, u: string)
    requires NoComma(u)
    ensures Split(t + u) == Split(t)[..|Split(t)| - 1] + [Split(t)[|Split(t)| - 1] + u]
    decreases |u|
  {
    var ps := Split(t);
    if |u| == 0 {
      assert t + u == t;
      assert ps[|ps| - 1] + u == ps[|ps| - 1];
      assert ps[..|ps| - 1] + [ps[|ps| - 1]] == ps;
    } else {
      var u', ch := u[..|u| - 1], u[|u| - 1];
      assert u' + [ch] == u;
      assert t + u == (t + u') + [ch];
      assert ch != ',';
      assert NoComma(u') by {
        forall k | 0 <= k < |u'| ensures u'[k] != ',' {
          assert u'[k] == u[k];
        }
      }
      SplitExtend(t, u');
      SplitSnoc(t + u', ch);
      ExtendLastTwice(ps, u', ch);
    }
  }

  /** Extending the last piece by s, then by ch, extends it by s + [ch]. */
  lemma ExtendLastTwice(ps: seq<string>, s: string, ch: char)
    requires |ps| >= 1
    ensures var qs := ps[..|ps| - 1] + [ps[|ps| - 1] + s];
      qs[..|qs| - 1] + [qs[|qs| - 1] + [ch]] == ps[..|ps| - 1] + [ps[|ps| - 1] + (s + [ch])]
  {
    var qs := ps[..|ps| - 1] + [ps[|ps| - 1] + s];
    assert qs[..|qs| - 1] == ps[..|ps| - 1];
    assert qs[|qs| - 1] + [ch] == ps[|ps| - 1] + (s + [ch]);
  }

  /** A bare id names itself. */
  lemma NewickIdsOfLeaf(x: string)
    requires NoDelimiters(x) && ':' !in x
    ensures NewickIds(x) == [x]
  {
    LeavesOfLeaf(x);
    TakeUntilColonOfPlain(x);
  }

  /** A side with its branch length names the ids of the side. */
  lemma NewickIdsOfSide(a: string, len: string)
    requires NoDelimiters(len)
    ensures NewickIds(a + ":" + len) == NewickIds(a)
  {
    var u := ":" + len;
    assert NoDelimiters(u) by {
      assert forall k | 1 <= k < |u| :: u[k] == len[k - 1];
    }
    assert a + ":" + len == a + u;
    RemoveBracketsConcat(a, u);
    RemoveBracketsMeaning(u);
    var t := RemoveBrackets(a);
    assert RemoveBrackets(a + ":" + len) == t + u;
    SplitExtend(t, u);
    var ps := Split(t);
    var qs := Split(t + u);
    TakeUntilColonAnnotated(ps[|ps| - 1], len);
    assert CutPieces(qs) == CutPieces(ps) by {
      forall k | 0 <= k < |ps| ensures CutPieces(qs)[k] == CutPieces(ps)[k] {
        if k == |ps| - 1 {
          assert qs[k] == ps[k] + ":" + len;
        }
      }
    }
  }

  /** The Newick fragment of a merge names the left ids, then the right. */
  lemma NewickIdsOfAnnotated(a: string, la: string, b: string, lb: string)
    requires NoDelimiters(la) && NoDelimiters(lb)
    ensures NewickIds(Annotated(a, la, b, lb)) == NewickIds(a) + NewickIds(b)
  {
    var x, y := a + ":" + la, b + ":" + lb;
    calc {
      NewickIds(Annotated(a, la, b, lb));
      { assert Annotated(a, la, b, lb) == Bracket(x, y); }
      CutPieces(Leaves(Bracket(x, y)));
      { LeavesOfBracket(x, y); }
      CutPieces(Leaves(x) + Leaves(y));
      { CutPiecesConcat(Leaves(x), Leaves(y)); }
      NewickIds(x) + NewickIds(y);
      { NewickIdsOfSide(a, la); NewickIdsOfSide(b, lb); }
      NewickIds(a) + NewickIds(b);
    }
  }

  /** Cutting pieces commutes with concatenation. */
  lemma CutPiecesConcat(px: seq<string>, py: seq<string>)
    ensures CutPieces(px + py) == CutPieces(px) + CutPieces(py)
  {
    var l, r := CutPieces(px + py), CutPieces(px) + CutPieces(py);
    forall k | 0 <= k < |l| ensures l[k] == r[k] {
      if k < |px| {
        assert (px + py)[k] == px[k];
      } else {
        assert (px + py)[k] == py[k - |px|];
      }
    }
  }

  /** The first piece of a text is its prefix up to the first comma. */
  lemma {:induction false} SplitFirst(t: string)
    ensures Split(t)[0] == TakeUntilComma(t)
  {
    if |t| > 0 {
      var p := t[..|t| - 1];
      var ch := t[|t| - 1];
      SplitFirst(p);
      assert t == p + [ch];
      TakeUntilCommaExtend(p, ch);
      if ch != ',' {
        JoinSplit(p);
        SplitCount(p);
        if NoComma(p) {
          assert multiset(p)[','] == 0;
          assert |Split(p)| == 1;
        }
      }
    }
  }

  lemma TakeUntilCommaExtend(p: string, ch: char)
    ensures !NoComma(p) ==> TakeUntilComma(p + [ch]) == TakeUntilComma(p)
    ensures NoComma(p) && ch == ',' ==> TakeUntilComma(p + [ch]) == p
    ensures NoComma(p) && ch != ',' ==> TakeUntilComma(p + [ch]) == p + [ch]
  {
    var r := TakeUntilComma(p + [ch]);
    var q := TakeUntilComma(p);
    PrefixUntilCommaUnique(p + [ch], r, if !NoComma(p) then q else if ch == ',' then p else p + [ch]);
  }

  /** At most one prefix ends at the first comma. */
  lemma PrefixUntilCommaUnique(t: string, r1: string, r2: string)
    requires r1 <= t && NoComma(r1) && (|r1| == |t| || t[|r1|] == ',')
    requires r2 <= t && NoComma(r2) && (|r2| == |t| || t[|r2|] == ',')
    ensures r1 == r2
  {
    assert |r1| <= |r2| ==> r2[..|r1|] == r1;
    assert |r2| <= |r1| ==> r1[..|r2|] == r2;
  }

  /** get_1st_pro gives the first leaf that get_xticklabel lists. */
  lemma FirstProIsFirstLeaf(pro: string, first: string)
    requires first <= RemoveBrackets(pro) && NoComma(first)
    requires |first| == |RemoveBrackets(pro)| || RemoveBrackets(pro)[|first|] == ','
    ensures first == Leaves(pro)[0]
  {
    SplitFirst(RemoveBrackets(pro));
    PrefixUntilCommaUnique(RemoveBrackets(pro), first, TakeUntilComma(RemoveBrackets(pro)));
  }

  // ---------------------------------------------------------------------
  // The clusters the nested names write

  /** A cluster as the merges build it: a leaf (an id with its leading
      'p') or the merge of two clusters. */
  datatype Tree = Leaf(name: string) | Node(left: Tree, right: Tree)

  /** The nested name the program keeps for a cluster. */
  function Render(t: Tree): string
  {
    match t
    case Leaf(n) => n
    case Node(l, r) => Bracket(Render(l), Render(r))
  }

  function Height(t: Tree): nat
  {
    match t
    case Leaf(_) => 0
    case Node(l, r) => 1 + (if Height(l) >= Height(r) then Height(l) else Height(r))
  }

  function FirstLeafOf(t: Tree): string
  {
    match t
    case Leaf(n) => n
    case Node(l, _) => FirstLeafOf(l)
  }

  /** Every leaf is a 'p'-prefixed name without delimiters. */
  ghost predicate WellFormed(t: Tree)
  {
    match t
    case Leaf(n) => |n| > 0 && n[0] == 'p' && NoDelimiters(n)
    case Node(l, r) => WellFormed(l) && WellFormed(r)
  }

  /** BracketScan extended by one character, as its definition reads. */
  lemma ScanSnoc(p: string, ch: char)
    ensures BracketScan(p + [ch]) ==
      var q := BracketScan(p);
      if ch == '(' then (q.0 + 1, q.1)
      else if ch == ')' then (q.0 - 1, if q.1 >= q.0 then q.1 else q.0)
      else q
  {
    var s := p + [ch];
    assert s[..|s| - 1] == p && s[|s| - 1] == ch;
  }

  /** Scanning a cluster's name after any text p leaves the open count
      where it was, and raises the deepest count to at least the count
      before it plus the cluster's height (a leaf changes nothing). */
  lemma {:induction false} ScanOfTree(p: string, t: Tree)
    requires WellFormed(t)
    ensures BracketScan(p + Render(t)).0 == BracketScan(p).0
    ensures BracketScan(p + Render(t)).1 ==
      if t.Leaf? then BracketScan(p).1
      else if BracketScan(p).1 >= BracketScan(p).0 + Height(t) then BracketScan(p).1
      else BracketScan(p).0 + Height(t)
    decreases t
  {
    match t
    case Leaf(n) =>
      ScanSkipsPlain(p, n);
    case Node(l, r) =>
      var L, R := Render(l), Render(r);
      var p1 := p + ['('];
      var p2 := p1 + L;
      var p3 := p2 + [','];
      var p4 := p3 + R;
      assert p + Render(t) == p4 + [')'] by {
        assert Render(t) == "(" + L + "," + R + ")";
      }
      var q := BracketScan(p);
      ScanSnoc(p, '(');
      assert BracketScan(p1) == (q.0 + 1, q.1);
      ScanOfTree(p1, l);
      var q2 := BracketScan(p2);
      assert q2.0 == q.0 + 1;
      ScanSnoc(p2, ',');
      assert BracketScan(p3) == q2;
      ScanOfTree(p3, r);
      var q4 := BracketScan(p4);
      assert q4.0 == q.0 + 1;
      ScanSnoc(p4, ')');
  }

  /** get_num_bra of a cluster's name is the cluster's height. */
  lemma DepthOfTree(t: Tree)
    requires WellFormed(t)
    ensures Depth(Render(t)) == Height(t)
  {
    ScanOfTree("", t);
    assert "" + Render(t) == Render(t);
  }

  /** A merged cluster's name ends in ')', a leaf's does not. */
  lemma RenderEnd(t: Tree)
    requires WellFormed(t)
    ensures |Render(t)| > 0
    ensures Render(t)[|Render(t)| - 1] == ')' <==> t.Node?
  {
    if t.Leaf? {
      assert Render(t)[|Render(t)| - 1] in Render(t);
    }
  }

  /** The text up to the first comma of a comma-joined text lies in its
      first part. */
  lemma TakeUntilCommaConcat(x: string, y: string)
    ensures TakeUntilComma(x + "," + y) == TakeUntilComma(x)
  {
    var t, r := x + "," + y, TakeUntilComma(x);
    assert r <= t by {
      assert t[..|x|] == x;
    }
    assert |r| == |x| ==> t[|r|] == ',';
    PrefixUntilCommaUnique(t, TakeUntilComma(t), r);
  }

  /** get_1st_pro of a cluster's name is its first leaf, which starts
      with 'p'. */
  lemma {:induction false} FirstLeafOfTree(t: Tree)
    requires WellFormed(t)
    ensures TakeUntilComma(RemoveBrackets(Render(t))) == FirstLeafOf(t)
    ensures |FirstLeafOf(t)| > 0 && FirstLeafOf(t)[0] == 'p'
  {
    match t
    case Leaf(n) =>
      RemoveBracketsMeaning(n);
      PrefixUntilCommaUnique(n, TakeUntilComma(n), n);
    case Node(l, r) =>
      FirstLeafOfTree(l);
      RemoveBracketsOfBracket(Render(l), Render(r));
      TakeUntilCommaConcat(RemoveBrackets(Render(l)), RemoveBrackets(Render(r)));
  }

  // ---------------------------------------------------------------------
  // add_p, numeric prefixes, get_pro_name_no_num

  /** add_p: the internal leaf name of every id. */
  method AddP(ids: seq<string>) returns (pids: seq<string>)
    ensures |pids| == |ids|
    ensures forall k | 0 <= k < |ids| :: pids[k] == "p" + ids[k]
    ensures forall k | 0 <= k < |ids| :: pids[k][0] == 'p' && pids[k][1..] == ids[k]
  {
    pids := [];
    for k := 0 to |ids|
      invariant |pids| == k
      invariant forall j | 0 <= j < k :: pids[j] == "p" + ids[j]
    {
      pids := pids + ["p" + ids[k]];
    }
  }

  function Digit(d: nat): char
    requires d < 10
  {
    "0123456789"[d]
  }

  /** `str` of a layer index: its decimal digits. */
  function NatText(n: nat): (s: string)
    ensures |s| > 0
    ensures forall k | 0 <= k < |s| :: '0' <= s[k] <= '9'
  {
    if n < 10 then [Digit(n)] else NatText(n / 10) + [Digit(n % 10)]
  }

  /** Position of the first 'p'. */
  function FirstP(s: string): (r: nat)
    requires 'p' in s
    ensures r < |s| && s[r] == 'p'
    ensures forall k | 0 <= k < r :: s[k] != 'p'
  {
    if s[0] == 'p' then 0 else 1 + FirstP(s[1..])
  }

  /** get_pro_name_no_num: the index of the first 'p'. */
  method GetProNameNoNum(pro: string) returns (ind: nat)
    requires 'p' in pro
    ensures ind < |pro| && pro[ind] == 'p'
    ensures forall k | 0 <= k < ind :: pro[k] != 'p'
  {
    ind := 0;
    while pro[ind] != 'p'
      invariant ind < |pro|
      invariant forall k | 0 <= k < ind :: pro[k] != 'p'
      invariant 'p' in pro[ind..]
      decreases |pro| - ind
    {
      ind := ind + 1;
    }
  }

  /** A layer reference is the index's digits before a 'p'-prefixed name;
      cutting at the first 'p' recovers the name. */
  lemma StripLayerIndex(i: nat, name: string)
    requires |name| > 0 && name[0] == 'p'
    ensures (NatText(i) + name)[0] != 'p'
    ensures 'p' in NatText(i) + name
    ensures FirstP(NatText(i) + name) == |NatText(i)|
    ensures (NatText(i) + name)[FirstP(NatText(i) + name)..] == name
  {
    var s := NatText(i) + name;
    assert s[|NatText(i)|] == 'p';
    assert forall k | 0 <= k < |NatText(i)| :: s[k] == NatText(i)[k];
    assert s[|NatText(i)|..] == name;
  }
}
