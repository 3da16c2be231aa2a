/** What a spread from a clicked block does to the board: the blocks it uncovers, the order it
    uncovers them in, and where it stops. Both engines spread this way; the lemmas here are the
    steps of the recursive spread. */
module Spread {
  import opened Counting
  import opened Blocks

  /** What uncovering may do to the board: each block stays as it is, or is a covered,
      unflagged block that is not a bomb and becomes uncovered. */
  ghost predicate Revealed(s0: seq<Block>, s1: seq<Block>) {
    |s1| == |s0| &&
    forall j :: 0 <= j < |s0| ==>
      s1[j] == s0[j] || (IsCoveredSafe(s0[j]) && !s0[j].isFlagged && s1[j] == s0[j].(isUncovered := true))
  }

  /** A block a spread stops at: uncovered, flagged or a bomb. */
  predicate Cleared(b: Block) {
    b.isUncovered || b.isFlagged || IsBomb(b)
  }

  /** A block of type None that was covered in s0 and is uncovered in s1 has every neighbour
      cleared in s1: the spread went on through it. */
  ghost predicate ClosedAt(s0: seq<Block>, s1: seq<Block>, links: seq<seq<nat>>, j: int) {
    0 <= j < |s0| && j < |s1| && j < |links| && !s0[j].isUncovered && s1[j].isUncovered && s1[j].blockType == None
    ==> forall n :: n in links[j] && n < |s1| ==> Cleared(s1[n])
  }

  /** Two spreads in a row are a spread. */
  lemma SpreadTrans(a: seq<Block>, b: seq<Block>, c: seq<Block>, links: seq<seq<nat>>)
    requires Revealed(a, b) && Revealed(b, c)
    ensures Revealed(a, c)
    ensures forall n :: 0 <= n < |b| && Cleared(b[n]) ==> Cleared(c[n])
    ensures forall j :: ClosedAt(a, b, links, j) && ClosedAt(b, c, links, j) ==> ClosedAt(a, c, links, j)
  {
  }

  /** Block `x` is a neighbour of the `m`th block of `order`, which is of type None. */
  ghost predicate Reached(layout: seq<Block>, links: seq<seq<nat>>, order: seq<nat>, x: nat, m: int) {
    0 <= m < |order| && order[m] < |links| && x in links[order[m]] &&
    order[m] < |layout| && layout[order[m]].blockType == None
  }

  /** Each block of `order` on the board, after the first, is a neighbour of an earlier one of
      type None. */
  ghost predicate Chained(layout: seq<Block>, links: seq<seq<nat>>, order: seq<nat>) {
    forall k :: 0 < k < |order| && order[k] < |layout| ==> exists m :: m < k && Reached(layout, links, order, order[k], m)
  }

  /** `order` lists, each once, exactly the blocks that are uncovered in s1 and were not in s0. */
  ghost predicate NewlyUncovered(s0: seq<Block>, s1: seq<Block>, order: seq<nat>) {
    && |s1| == |s0|
    && (forall k :: 0 <= k < |order| ==> order[k] < |s1|)
    && (forall j :: 0 <= j < |s1| ==> (j in order <==> !s0[j].isUncovered && s1[j].isUncovered))
    && Distinct(order)
  }

  /** What a spread from one block has done, going from s0 to s1: only covered, unflagged blocks
      that are not bombs were uncovered, and nothing else changed; `order` lists them in the
      order they were uncovered, each one after the first a neighbour of an earlier block of
      type None. */
  ghost predicate Spreading(s0: seq<Block>, s1: seq<Block>, layout: seq<Block>, links: seq<seq<nat>>, order: seq<nat>) {
    Revealed(s0, s1) && NewlyUncovered(s0, s1, order) && Chained(layout, links, order)
  }

  /** A chain begun at a block of type None, followed by a chain begun at one of its
      neighbours, is a chain. */
  lemma ChainedConcat(layout: seq<Block>, links: seq<seq<nat>>, o1: seq<nat>, o2: seq<nat>)
    requires Chained(layout, links, o1) && Chained(layout, links, o2)
    requires |o1| > 0 && o1[0] < |links| && o1[0] < |layout| && layout[o1[0]].blockType == None
    requires |o2| > 0 ==> o2[0] in links[o1[0]]
    ensures Chained(layout, links, o1 + o2)
  {
    var o := o1 + o2;
    forall k | 0 < k < |o| && o[k] < |layout| ensures exists m :: m < k && Reached(layout, links, o, o[k], m) {
      if k < |o1| {
        assert o[k] == o1[k];
        var m :| m < k && Reached(layout, links, o1, o1[k], m);
        assert o[m] == o1[m];
        assert Reached(layout, links, o, o[k], m);
      } else if k == |o1| {
        assert o[0] == o1[0] && o[k] == o2[0];
        assert Reached(layout, links, o, o[k], 0);
      } else {
        var k2 := k - |o1|;
        assert o[k] == o2[k2];
        var m :| m < k2 && Reached(layout, links, o2, o2[k2], m);
        assert o[|o1| + m] == o2[m];
        assert Reached(layout, links, o, o[k], |o1| + m);
      }
    }
  }

  /** Blocks newly uncovered in two steps are those of the first step, then those of the second. */
  lemma NewlyUncoveredConcat(s0: seq<Block>, sb: seq<Block>, sa: seq<Block>, o1: seq<nat>, o2: seq<nat>)
    requires Revealed(s0, sb) && Revealed(sb, sa)
    requires NewlyUncovered(s0, sb, o1) && NewlyUncovered(sb, sa, o2)
    ensures NewlyUncovered(s0, sa, o1 + o2)
  {
    forall x | x in o1 ensures x !in o2 {
      assert sb[x].isUncovered;
    }
    DistinctConcat(o1, o2);
  }

  /** A spread that has begun at a block of type None, followed by a spread from one of that
      block's neighbours, is one spread. */
  lemma SpreadCompose(s0: seq<Block>, sb: seq<Block>, sa: seq<Block>, layout: seq<Block>, links: seq<seq<nat>>,
                      o1: seq<nat>, o2: seq<nat>)
    requires Spreading(s0, sb, layout, links, o1) && Spreading(sb, sa, layout, links, o2)
    requires |o1| > 0 && o1[0] < |links| && o1[0] < |layout| && layout[o1[0]].blockType == None
    requires |o2| > 0 ==> o2[0] in links[o1[0]]
    ensures Spreading(s0, sa, layout, links, o1 + o2)
    ensures forall n :: 0 <= n < |sb| && Cleared(sb[n]) ==> Cleared(sa[n])
    ensures forall j :: ClosedAt(s0, sb, links, j) && ClosedAt(sb, sa, links, j) ==> ClosedAt(s0, sa, links, j)
  {
    SpreadTrans(s0, sb, sa, links);
    NewlyUncoveredConcat(s0, sb, sa, o1, o2);
    ChainedConcat(layout, links, o1, o2);
  }

  /** Uncovering the single block `i`, covered, unflagged and not a bomb, is a spread of that
      block alone; it is closed everywhere unless the block is of type None. */
  lemma SpreadFirst(s0: seq<Block>, s1: seq<Block>, layout: seq<Block>, links: seq<seq<nat>>, i: nat)
    requires i < |s0| && IsCoveredSafe(s0[i]) && !s0[i].isFlagged
    requires s1 == s0[i := s0[i].(isUncovered := true)]
    ensures Spreading(s0, s1, layout, links, [i])
    ensures forall j :: j != i ==> ClosedAt(s0, s1, links, j)
    ensures s0[i].blockType != None ==> forall j :: ClosedAt(s0, s1, links, j)
  {
  }

  /** The state of a spread from block `i`, of type None, after its first `t` neighbours: a
      spread beginning at `i`, closed everywhere except perhaps at `i`, whose first `t`
      neighbours are cleared. */
  ghost predicate SpreadSoFar(s0: seq<Block>, s: seq<Block>, layout: seq<Block>, links: seq<seq<nat>>,
                              order: seq<nat>, i: nat, t: int) {
    && i < |links| && 0 <= t <= |links[i]|
    && Spreading(s0, s, layout, links, order) && |order| > 0 && order[0] == i
    && (forall j :: j != i ==> ClosedAt(s0, s, links, j))
    && (forall m :: 0 <= m < t ==> links[i][m] < |s| && Cleared(s[links[i][m]]))
  }

  /** A spread from the next neighbour carries the spread from `i` one neighbour further. */
  lemma SpreadNext(s0: seq<Block>, sb: seq<Block>, sa: seq<Block>, layout: seq<Block>, links: seq<seq<nat>>,
                   order: seq<nat>, more: seq<nat>, i: nat, t: int)
    requires SpreadSoFar(s0, sb, layout, links, order, i, t) && t < |links[i]|
    requires i < |layout| && layout[i].blockType == None
    requires Spreading(sb, sa, layout, links, more) && (|more| > 0 ==> more[0] == links[i][t])
    requires forall j :: ClosedAt(sb, sa, links, j)
    requires links[i][t] < |sa| && Cleared(sa[links[i][t]])
    ensures SpreadSoFar(s0, sa, layout, links, order + more, i, t + 1)
  {
    SpreadCompose(s0, sb, sa, layout, links, order, more);
  }

  /** A spread from `i` that has been through all neighbours is closed everywhere. */
  lemma SpreadDone(s0: seq<Block>, s: seq<Block>, layout: seq<Block>, links: seq<seq<nat>>, order: seq<nat>, i: nat)
    requires i < |links| && SpreadSoFar(s0, s, layout, links, order, i, |links[i]|)
    ensures forall j :: ClosedAt(s0, s, links, j)
  {
    forall n | n in links[i] && n < |s| ensures Cleared(s[n]) {
      var m :| 0 <= m < |links[i]| && links[i][m] == n;
    }
  }
}
