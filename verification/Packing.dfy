/** `pack` of `policies.ts`: as many blocks per page as fit, never splitting one. */
module Packing {
  import opened Text

  /** The blocks that are packed at all: empty ones are skipped. */
  function NonEmpty(blocks: seq<string>): seq<string> {
    if blocks == [] then []
    else (if blocks[0] == "" then [] else [blocks[0]]) + NonEmpty(blocks[1..])
  }

  /** The runs of blocks that greedy packing puts on one page each; `run` is the page being filled. */
  function Greedy(run: seq<string>, blocks: seq<string>, budget: nat, joiner: string): seq<seq<string>>
    decreases |blocks|
  {
    if blocks == [] then (if run == [] then [] else [run])
    else if blocks[0] == "" then Greedy(run, blocks[1..], budget, joiner)
    else if run != [] && |Join(run + [blocks[0]], joiner)| > budget then
      [run] + Greedy([blocks[0]], blocks[1..], budget, joiner)
    else Greedy(run + [blocks[0]], blocks[1..], budget, joiner)
  }

  function JoinRuns(runs: seq<seq<string>>, joiner: string): seq<string> {
    if runs == [] then [] else [Join(runs[0], joiner)] + JoinRuns(runs[1..], joiner)
  }

  function Packed(blocks: seq<string>, budget: nat, joiner: string): seq<string> {
    JoinRuns(Greedy([], blocks, budget, joiner), joiner)
  }

  lemma {:induction false} JoinSnoc(parts: seq<string>, last: string, joiner: string)
    requires parts != []
    ensures Join(parts + [last], joiner) == Join(parts, joiner) + joiner + last
  {
    if |parts| > 1 {
      assert (parts + [last])[1..] == parts[1..] + [last];
      JoinSnoc(parts[1..], last, joiner);
      assert parts[0] + joiner + (Join(parts[1..], joiner) + joiner + last)
          == (parts[0] + joiner + Join(parts[1..], joiner)) + joiner + last;
    } else {
      assert (parts + [last])[1..] == [last];
    }
  }

  lemma {:induction false} JoinRunsSnoc(runs: seq<seq<string>>, run: seq<string>, joiner: string)
    ensures JoinRuns(runs + [run], joiner) == JoinRuns(runs, joiner) + [Join(run, joiner)]
  {
    if runs == [] {
      assert runs + [run] == [run];
      assert [run][1..] == [];
      assert JoinRuns([run][1..], joiner) == [];
    } else {
      assert (runs + [run])[1..] == runs[1..] + [run];
      JoinRunsSnoc(runs[1..], run, joiner);
    }
  }

  lemma NothingJoined(joiner: string)
    ensures Join([], joiner) == "" && JoinRuns([], joiner) == []
  {
  }

  lemma OneJoined(block: string, joiner: string)
    ensures Join([block], joiner) == block && [] + [block] == [block]
  {
  }

  lemma GreedyUnfolds(run: seq<string>, blocks: seq<string>, budget: nat, joiner: string)
    requires blocks != []
    ensures Greedy(run, blocks, budget, joiner) ==
            if blocks[0] == "" then Greedy(run, blocks[1..], budget, joiner)
            else if run != [] && |Join(run + [blocks[0]], joiner)| > budget then
              [run] + Greedy([blocks[0]], blocks[1..], budget, joiner)
            else Greedy(run + [blocks[0]], blocks[1..], budget, joiner)
  {
    hide Join;
  }

  lemma GreedyEnds(run: seq<string>, budget: nat, joiner: string)
    ensures Greedy(run, [], budget, joiner) == if run == [] then [] else [run]
  {
  }

  method Pack(blocks: seq<string>, budget: nat, joiner: string) returns (pages: seq<string>)
    ensures pages == Packed(blocks, budget, joiner)
  {
    hide Greedy, Join, JoinRuns;
    pages := [];
    var current := "";
    NothingJoined(joiner);
    ghost var runs, run: seq<string> := [], [];
    for i := 0 to |blocks|
      invariant run == [] <==> current == ""
      invariant current == Join(run, joiner)
      invariant pages == JoinRuns(runs, joiner)
      invariant Greedy([], blocks, budget, joiner) == runs + Greedy(run, blocks[i..], budget, joiner)
    {
      var block := blocks[i];
      assert blocks[i..][0] == block && blocks[i..][1..] == blocks[i + 1..];
      GreedyUnfolds(run, blocks[i..], budget, joiner);
      OneJoined(block, joiner);
      if block == "" {
        continue;
      }
      var candidate := if current == "" then block else current + joiner + block;
      if run != [] {
        JoinSnoc(run, block, joiner);
      }
      if |candidate| > budget && current != "" {
        JoinRunsSnoc(runs, run, joiner);
        pages := pages + [current];
        ghost var later := Greedy([block], blocks[i + 1..], budget, joiner);
        assert runs + ([run] + later) == (runs + [run]) + later;
        runs, run := runs + [run], [block];
        current := block;
      } else {
        run := run + [block];
        current := candidate;
      }
    }
    assert blocks[|blocks|..] == [];
    GreedyEnds(run, budget, joiner);
    if current != "" {
      JoinRunsSnoc(runs, run, joiner);
      pages := pages + [current];
    } else {
      assert runs + [] == runs;
    }
  }

  // ---------------------------------------------------------------------------------------
  // Optimality.

  function Chain(runs: seq<seq<string>>): seq<string> {
    if runs == [] then [] else runs[0] + Chain(runs[1..])
  }

  /** A page holds some blocks: at least one, and more than one only within the budget. */
  predicate IsPage(run: seq<string>, budget: nat, joiner: string) {
    run != [] && (|run| == 1 || |Join(run, joiner)| <= budget)
  }

  /** One way to cut `items` into consecutive pages. */
  predicate IsPaging(runs: seq<seq<string>>, items: seq<string>, budget: nat, joiner: string) {
    Chain(runs) == items && forall i | 0 <= i < |runs| :: IsPage(runs[i], budget, joiner)
  }

  /** Greedy packing is itself such a cut of the non-empty blocks, in their order. */
  lemma {:induction false} GreedyIsPaging(run: seq<string>, blocks: seq<string>, budget: nat, joiner: string)
    requires run == [] || IsPage(run, budget, joiner)
    ensures IsPaging(Greedy(run, blocks, budget, joiner), run + NonEmpty(blocks), budget, joiner)
    decreases |blocks|
  {
    hide Greedy, Join, IsPaging;
    if blocks == [] {
      GreedyEnds(run, budget, joiner);
      NoPages(budget, joiner);
      assert run + [] == run;
      if run != [] {
        PagingWithFirst(run, [], [], budget, joiner);
        assert [run] + [] == [run];
      }
    } else {
      GreedyUnfolds(run, blocks, budget, joiner);
      var block, later := blocks[0], NonEmpty(blocks[1..]);
      if block == "" {
        GreedyIsPaging(run, blocks[1..], budget, joiner);
        assert [] + later == later;
      } else if run != [] && |Join(run + [block], joiner)| > budget {
        GreedyIsPaging([block], blocks[1..], budget, joiner);
        PagingWithFirst(run, Greedy([block], blocks[1..], budget, joiner), [block] + later, budget, joiner);
      } else {
        GreedyIsPaging(run + [block], blocks[1..], budget, joiner);
        Regroup(run, [block], later);
      }
    }
  }

  lemma NoPages(budget: nat, joiner: string)
    ensures IsPaging([], [], budget, joiner)
  {
  }

  lemma PagingWithFirst(run: seq<string>, runs: seq<seq<string>>, items: seq<string>, budget: nat, joiner: string)
    requires IsPage(run, budget, joiner) && IsPaging(runs, items, budget, joiner)
    ensures IsPaging([run] + runs, run + items, budget, joiner)
  {
    hide IsPage;
    assert ([run] + runs)[1..] == runs;
  }

  lemma {:induction false} JoinOfSuffix(run: seq<string>, k: nat, joiner: string)
    requires k <= |run|
    ensures |Join(run[k..], joiner)| <= |Join(run, joiner)|
  {
    if 0 < k {
      JoinOfSuffix(run[1..], k - 1, joiner);
      assert run[1..][k - 1..] == run[k..];
    } else {
      assert run[0..] == run;
    }
  }

  lemma {:induction false} JoinOfPrefix(run: seq<string>, k: nat, joiner: string)
    requires 0 < k <= |run|
    ensures |Join(run[..k], joiner)| <= |Join(run, joiner)|
  {
    if k > 1 {
      JoinOfPrefix(run[1..], k - 1, joiner);
      assert run[..k][1..] == run[1..][..k - 1];
    }
  }

  /** Dropping blocks from the front of a cut never needs a page more. */
  lemma {:induction false} PagingWithoutPrefix(runs: seq<seq<string>>, items: seq<string>, k: nat,
                                               budget: nat, joiner: string)
    returns (rest: seq<seq<string>>)
    requires IsPaging(runs, items, budget, joiner) && k <= |items|
    ensures IsPaging(rest, items[k..], budget, joiner) && |rest| <= |runs|
  {
    if k == 0 {
      rest := runs;
      assert items[0..] == items;
    } else {
      var first, others := runs[0], runs[1..];
      var n := |first|;
      assert items == first + Chain(others);
      if n <= k {
        assert items[n..] == Chain(others);
        rest := PagingWithoutPrefix(others, items[n..], k - n, budget, joiner);
        assert items[n..][k - n..] == items[k..];
      } else {
        rest := [first[k..]] + others;
        JoinOfSuffix(first, k, joiner);
        assert rest[1..] == others;
        assert items[k..] == first[k..] + Chain(others);
      }
    }
  }

  /** No cut of the non-empty blocks into consecutive pages uses fewer pages than greedy packing. */
  lemma {:induction false} GreedyIsFewest(run: seq<string>, blocks: seq<string>, runs: seq<seq<string>>,
                                          budget: nat, joiner: string)
    requires run == [] || IsPage(run, budget, joiner)
    requires IsPaging(runs, run + NonEmpty(blocks), budget, joiner)
    ensures |Greedy(run, blocks, budget, joiner)| <= |runs|
    decreases |blocks|
  {
    hide Join, Greedy;
    var items := run + NonEmpty(blocks);
    if blocks != [] {
      GreedyUnfolds(run, blocks, budget, joiner);
    }
    if blocks == [] {
      GreedyEnds(run, budget, joiner);
      assert run != [] ==> runs != [];
    } else if blocks[0] == "" {
      GreedyIsFewest(run, blocks[1..], runs, budget, joiner);
    } else {
      var block, later := blocks[0], NonEmpty(blocks[1..]);
      assert items == run + [block] + later;
      if run != [] && |Join(run + [block], joiner)| > budget {
        var first, n := runs[0], |runs[0]|;
        assert first == items[..n];
        if n > |run| {
          assert first[..|run| + 1] == run + [block];
          JoinOfPrefix(first, |run| + 1, joiner);
          assert false;
        }
        assert Chain(runs[1..]) == items[n..];
        var rest := PagingWithoutPrefix(runs[1..], items[n..], |run| - n, budget, joiner);
        assert items[n..][|run| - n..] == [block] + later;
        GreedyIsFewest([block], blocks[1..], rest, budget, joiner);
      } else {
        assert items == (run + [block]) + later;
        GreedyIsFewest(run + [block], blocks[1..], runs, budget, joiner);
      }
    }
  }

  /** `pack` uses the fewest pages there can be, and each page is the join of a run of blocks. */
  lemma PackedIsOptimal(blocks: seq<string>, budget: nat, joiner: string)
    ensures var runs := Greedy([], blocks, budget, joiner);
            && Packed(blocks, budget, joiner) == JoinRuns(runs, joiner)
            && IsPaging(runs, NonEmpty(blocks), budget, joiner)
            && forall others | IsPaging(others, NonEmpty(blocks), budget, joiner) :: |runs| <= |others|
  {
    var runs := Greedy([], blocks, budget, joiner);
    GreedyIsPaging([], blocks, budget, joiner);
    assert [] + NonEmpty(blocks) == NonEmpty(blocks);
    forall others | IsPaging(others, NonEmpty(blocks), budget, joiner)
      ensures |runs| <= |others|
    {
      GreedyIsFewest([], blocks, others, budget, joiner);
    }
  }

  // ---------------------------------------------------------------------------------------
  // Every cut is forced, which leaves one cut.

  /** No page could take the first block of the next one as well. */
  predicate IsFull(runs: seq<seq<string>>, budget: nat, joiner: string) {
    forall i | 0 <= i < |runs| - 1 && runs[i + 1] != [] ::
      |Join(runs[i] + [runs[i + 1][0]], joiner)| > budget
  }

  lemma {:induction false} GreedyIsFull(run: seq<string>, blocks: seq<string>, budget: nat, joiner: string)
    ensures var runs := Greedy(run, blocks, budget, joiner);
            IsFull(runs, budget, joiner) && (run != [] ==> runs != [] && run <= runs[0])
    decreases |blocks|
  {
    hide Greedy, Join;
    if blocks == [] {
      GreedyEnds(run, budget, joiner);
    } else {
      GreedyUnfolds(run, blocks, budget, joiner);
      if blocks[0] == "" {
        GreedyIsFull(run, blocks[1..], budget, joiner);
      } else if run != [] && |Join(run + [blocks[0]], joiner)| > budget {
        GreedyIsFull([blocks[0]], blocks[1..], budget, joiner);
      } else {
        GreedyIsFull(run + [blocks[0]], blocks[1..], budget, joiner);
      }
    }
  }

  lemma FirstRunIsPrefix(runs: seq<seq<string>>)
    requires runs != []
    ensures runs[0] <= Chain(runs) && Chain(runs[1..]) == Chain(runs)[|runs[0]|..]
  {
  }

  /** The first page of a full cut is no shorter than that of any other cut. */
  lemma FullIsNotShorter(runs: seq<seq<string>>, others: seq<seq<string>>, items: seq<string>,
                         budget: nat, joiner: string)
    requires IsPaging(runs, items, budget, joiner) && IsFull(runs, budget, joiner)
    requires IsPaging(others, items, budget, joiner)
    requires runs != [] && others != []
    ensures |runs[0]| >= |others[0]|
  {
    hide Join, Chain;
    var n := |runs[0]|;
    FirstRunIsPrefix(runs);
    FirstRunIsPrefix(others);
    if n < |others[0]| {
      assert items[n..] == Chain(runs[1..]);
      if runs[1..] == [] {
        NothingChained();
        assert false;
      }
      FirstRunIsPrefix(runs[1..]);
      assert runs[1][0] == items[n..][0] == items[n] == others[0][n];
      assert runs[0] + [runs[1][0]] == others[0][..n + 1];
      JoinOfPrefix(others[0], n + 1, joiner);
    }
  }

  lemma NothingChained()
    ensures Chain([]) == []
  {
  }

  lemma {:induction false} FullIsOne(runs: seq<seq<string>>, others: seq<seq<string>>, items: seq<string>,
                                     budget: nat, joiner: string)
    requires IsPaging(runs, items, budget, joiner) && IsFull(runs, budget, joiner)
    requires IsPaging(others, items, budget, joiner) && IsFull(others, budget, joiner)
    ensures runs == others
    decreases |runs|
  {
    hide Join, Chain;
    NothingChained();
    if runs != [] && others != [] {
      FullIsNotShorter(runs, others, items, budget, joiner);
      FullIsNotShorter(others, runs, items, budget, joiner);
      FirstRunIsPrefix(runs);
      FirstRunIsPrefix(others);
      assert runs[0] == items[..|runs[0]|] == others[0];
      FullIsOne(runs[1..], others[1..], items[|runs[0]|..], budget, joiner);
      assert runs == [runs[0]] + runs[1..] && others == [others[0]] + others[1..];
    } else if runs != [] {
      FirstRunIsPrefix(runs);
    } else if others != [] {
      FirstRunIsPrefix(others);
    }
  }

  /** The pages are those of one cut alone: the one in which no page could take a block more. */
  lemma GreedyIffFull(blocks: seq<string>, runs: seq<seq<string>>, budget: nat, joiner: string)
    ensures runs == Greedy([], blocks, budget, joiner) <==>
            IsPaging(runs, NonEmpty(blocks), budget, joiner) && IsFull(runs, budget, joiner)
  {
    hide Greedy, IsFull;
    GreedyIsFull([], blocks, budget, joiner);
    PackedIsOptimal(blocks, budget, joiner);
    if IsPaging(runs, NonEmpty(blocks), budget, joiner) && IsFull(runs, budget, joiner) {
      FullIsOne(runs, Greedy([], blocks, budget, joiner), NonEmpty(blocks), budget, joiner);
    }
  }

  // ---------------------------------------------------------------------------------------
  // What is on the pages.

  lemma {:induction false} InkOfRuns(runs: seq<seq<string>>, joiner: string)
    requires Ink(joiner) == ""
    ensures Ink(Concat(JoinRuns(runs, joiner))) == Ink(Concat(Chain(runs)))
  {
    if runs != [] {
      InkOfRuns(runs[1..], joiner);
      InkJoin(runs[0], joiner);
      InkConcat(Join(runs[0], joiner), Concat(JoinRuns(runs[1..], joiner)));
      ConcatAppend(runs[0], Chain(runs[1..]));
      InkConcat(Concat(runs[0]), Concat(Chain(runs[1..])));
    }
  }

  lemma {:induction false} ConcatNonEmpty(blocks: seq<string>)
    ensures Concat(NonEmpty(blocks)) == Concat(blocks)
  {
    if blocks != [] {
      ConcatNonEmpty(blocks[1..]);
      var rest := NonEmpty(blocks[1..]);
      assert [] + rest == rest;
      assert ([blocks[0]] + rest)[1..] == rest;
    }
  }

  /** Joined by white space, the pages carry the ink of the blocks, all of it, once, and in order. */
  lemma InkOfPacked(blocks: seq<string>, budget: nat, joiner: string)
    requires Ink(joiner) == ""
    ensures Ink(Concat(Packed(blocks, budget, joiner))) == Ink(Concat(blocks))
  {
    GreedyIsPaging([], blocks, budget, joiner);
    assert [] + NonEmpty(blocks) == NonEmpty(blocks);
    InkOfRuns(Greedy([], blocks, budget, joiner), joiner);
    ConcatNonEmpty(blocks);
  }

  lemma {:induction false} JoinRunsAt(runs: seq<seq<string>>, joiner: string)
    ensures |JoinRuns(runs, joiner)| == |runs|
    ensures forall i | 0 <= i < |runs| :: JoinRuns(runs, joiner)[i] == Join(runs[i], joiner)
  {
    if runs != [] {
      JoinRunsAt(runs[1..], joiner);
      assert forall i | 1 <= i < |runs| ::
          JoinRuns(runs, joiner)[i] == JoinRuns(runs[1..], joiner)[i - 1] && runs[i] == runs[1..][i - 1];
    }
  }

  lemma {:induction false} ChainMembers(runs: seq<seq<string>>)
    ensures forall i, b | 0 <= i < |runs| && b in runs[i] :: b in Chain(runs)
  {
    if runs != [] {
      ChainMembers(runs[1..]);
      forall i, b | 0 <= i < |runs| && b in runs[i]
        ensures b in Chain(runs)
      {
        if i > 0 {
          assert runs[i] == runs[1..][i - 1];
        }
      }
    }
  }

  lemma {:induction false} ChainMember(runs: seq<seq<string>>, b: string) returns (i: nat)
    requires b in Chain(runs)
    ensures i < |runs| && b in runs[i]
  {
    if b in runs[0] {
      i := 0;
    } else {
      i := ChainMember(runs[1..], b);
      i := i + 1;
    }
  }

  lemma {:induction false} JoinHolds(run: seq<string>, b: string, joiner: string)
    requires b in run
    ensures |b| <= |Join(run, joiner)|
  {
    if b != run[0] {
      assert b in run[1..];
      JoinHolds(run[1..], b, joiner);
    }
  }

  lemma {:induction false} NonEmptyMembers(blocks: seq<string>)
    ensures forall b :: b in NonEmpty(blocks) <==> b in blocks && b != ""
  {
    if blocks != [] {
      NonEmptyMembers(blocks[1..]);
      assert blocks == [blocks[0]] + blocks[1..];
    }
  }

  /** Every page is the join of non-empty blocks, and one that breaks the budget is a single block. */
  lemma PackedPage(blocks: seq<string>, budget: nat, joiner: string, page: string)
    returns (run: seq<string>)
    requires page in Packed(blocks, budget, joiner)
    ensures run != [] && page == Join(run, joiner)
    ensures forall b | b in run :: b in blocks && b != ""
    ensures |page| > budget ==> run == [page]
  {
    hide Greedy, Join, JoinRuns, NonEmpty, Chain;
    var runs := Greedy([], blocks, budget, joiner);
    JoinRunsAt(runs, joiner);
    var i :| 0 <= i < |runs| && page == Join(runs[i], joiner);
    run := runs[i];
    GreedyIsPaging([], blocks, budget, joiner);
    assert [] + NonEmpty(blocks) == NonEmpty(blocks);
    assert IsPage(run, budget, joiner);
    ChainMembers(runs);
    NonEmptyMembers(blocks);
    OneJoined(run[0], joiner);
    assert |run| == 1 ==> run == [run[0]];
  }

  /** The pages that break the budget are exactly the blocks that do. */
  lemma PagesOverBudgetAreBlocks(blocks: seq<string>, budget: nat, joiner: string, text: string)
    requires |text| > budget
    ensures text in Packed(blocks, budget, joiner) <==> text in blocks
  {
    hide Greedy, Join, JoinRuns, NonEmpty, Chain;
    if text in Packed(blocks, budget, joiner) {
      var run := PackedPage(blocks, budget, joiner, text);
      assert run[0] == text;
    }
    if text in blocks {
      var runs := Greedy([], blocks, budget, joiner);
      GreedyIsPaging([], blocks, budget, joiner);
      assert [] + NonEmpty(blocks) == NonEmpty(blocks);
      NonEmptyMembers(blocks);
      var i := ChainMember(runs, text);
      JoinHolds(runs[i], text, joiner);
      assert IsPage(runs[i], budget, joiner);
      OneJoined(text, joiner);
      assert runs[i] == [text];
      JoinRunsAt(runs, joiner);
      assert JoinRuns(runs, joiner)[i] == text;
    }
  }
}
