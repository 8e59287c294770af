/** Runs of the small-memory heap, from a fresh heap on, in which it does less than it could. */
module HeapExamples {
  import opened HeapLayout
  import opened HeapImage
  import opened HeapRuns
  import opened HeapReallocs

  // ----- a shrinking rt_realloc leaves lfree behind -----

  const TAKEN1 := Heap([Block(0, 52, true), Block(52, 140, false)], 52, 52, 52)
  const TAKEN2 := Heap([Block(0, 52, true), Block(52, 76, true), Block(76, 140, false)], 76, 76, 76)
  const FULL := Heap([Block(0, 52, true), Block(52, 76, true), Block(76, 140, true)], 140, 140, 140)
  const SHRUNK :=
    Heap([Block(0, 16, true), Block(16, 52, false), Block(52, 76, true), Block(76, 140, true)], 140, 104, 140)

  lemma FirstTake()
    ensures Malloc(Initial(128), 128, 40) == (TAKEN1, At(12))
  {
    var bs := Initial(128).blocks;
    assert IndexOf(bs, 0) == 0 && FindFit(bs, 0, 40, 128) == 0;
    assert Taken(bs, 0, 40) == TAKEN1.blocks;
    assert FirstFree(TAKEN1.blocks, 0, 140) == 52;
  }

  lemma SecondTake()
    ensures Malloc(TAKEN1, 128, 12) == (TAKEN2, At(64))
  {
    var bs := TAKEN1.blocks;
    assert IndexOf(bs, 52) == 1 && FindFit(bs, 1, 12, 128) == 1;
    assert Taken(bs, 1, 12) == TAKEN2.blocks;
    assert FirstFree(TAKEN2.blocks, 1, 140) == 76;
  }

  lemma ThirdTake()
    ensures Malloc(TAKEN2, 128, 40) == (FULL, At(88))
  {
    var bs := TAKEN2.blocks;
    assert IndexOf(bs, 76) == 2 && FindFit(bs, 2, 40, 128) == 2;
    assert Taken(bs, 2, 40) == FULL.blocks;
    assert FirstFree(FULL.blocks, 2, 140) == 140;
  }

  lemma ThenShrink()
    requires Inv(FULL, 128)
    ensures IsLive(FULL.blocks, 12) && Realloc(FULL, 128, At(12), 4) == (SHRUNK, At(12))
  {
    assert IndexOf(FULL.blocks, 0) == 0;
    assert CutAt(FULL, 0, 4).blocks == SHRUNK.blocks;
    assert FuseBlocks(SHRUNK.blocks, 1) == SHRUNK.blocks;
  }

  const SHRINKING := [OpMalloc(40), OpMalloc(12), OpMalloc(40), OpRealloc(At(12), 4)]

  lemma HeapsHold()
    ensures Inv(Initial(128), 128) && Inv(TAKEN1, 128) && Inv(TAKEN2, 128) && Inv(FULL, 128)
    ensures Malloc(Initial(128), 128, 40) == (TAKEN1, At(12)) && Malloc(TAKEN1, 128, 12) == (TAKEN2, At(64))
    ensures Malloc(TAKEN2, 128, 40) == (FULL, At(88))
  {
    hide Malloc, Inv;
    InitialInv(128);
    FirstTake();
    MallocKeepsInv(Initial(128), 128, 40);
    SecondTake();
    MallocKeepsInv(TAKEN1, 128, 12);
    ThirdTake();
    MallocKeepsInv(TAKEN2, 128, 40);
  }

  /** The third request and the call that cuts the first block. */
  lemma SecondHalf()
    ensures Inv(TAKEN2, 128) && Inv(SHRUNK, 128) && LegalRun(TAKEN2, 128, [OpMalloc(40), OpRealloc(At(12), 4)])
    ensures After(TAKEN2, 128, [OpMalloc(40), OpRealloc(At(12), 4)]) == SHRUNK
  {
    assert ValidSize(128);
    hide Malloc, Realloc, Free, Inv, ValidSize, LegalRun, After, IsLive;
    HeapsHold();
    ThenShrink();
    ReallocKeepsInv(FULL, 128, At(12), 4);
    RunNone(SHRUNK, 128);
    RunCons(FULL, 128, OpRealloc(At(12), 4), []);
    RunCons(TAKEN2, 128, OpMalloc(40), [OpRealloc(At(12), 4)] + []);
    assert [OpMalloc(40)] + ([OpRealloc(At(12), 4)] + []) == [OpMalloc(40), OpRealloc(At(12), 4)];
  }

  lemma ShrinkingLeads()
    ensures Inv(Initial(128), 128) && LegalRun(Initial(128), 128, SHRINKING) && Inv(SHRUNK, 128)
    ensures After(Initial(128), 128, SHRINKING) == SHRUNK
  {
    assert ValidSize(128);
    hide Malloc, Realloc, Free, Inv, ValidSize, LegalRun, After, IsLive;
    HeapsHold();
    SecondHalf();
    var rest := [OpMalloc(40), OpRealloc(At(12), 4)];
    RunCons(TAKEN1, 128, OpMalloc(12), rest);
    RunCons(Initial(128), 128, OpMalloc(40), [OpMalloc(12)] + rest);
    assert [OpMalloc(40)] + ([OpMalloc(12)] + rest) == SHRINKING;
  }

  lemma ThenFails()
    ensures !LfreeIsLowest(SHRUNK) && Malloc(SHRUNK, 128, 12).1 == Null && Fits(SHRUNK.blocks[1], 12, 128)
  {
    assert SHRUNK.blocks[1] == Block(16, 52, false);
    assert IndexOf(SHRUNK.blocks, 140) == 4;
  }

  /** On a heap of 128 bytes: three requests fill it, the first block is cut to 4 bytes, and then a request of
      12 bytes fails although a free block of 24 bytes is there. */
  lemma ShrinkCanLoseLowest()
    ensures Inv(Initial(128), 128) && LegalRun(Initial(128), 128, SHRINKING)
    ensures var h := After(Initial(128), 128, SHRINKING);
      && !LfreeIsLowest(h) && Malloc(h, 128, 12).1 == Null
      && exists k :: 0 <= k < |h.blocks| && Fits(h.blocks[k], 12, 128)
  {
    ShrinkingLeads();
    ThenFails();
    hide Malloc, Inv, LfreeIsLowest;
  }

  // ----- a request that wraps -----

  /** A request of 0xfffffffd bytes gets 12, on a fresh heap of 64. */
  lemma WrappedRequestGetsTwelve()
    ensures Inv(Initial(64), 64) && ValidSize(64)
    ensures Malloc(Initial(64), 64, 0xffff_fffd) ==
      (Heap([Block(0, 24, true), Block(24, 76, false)], 24, 24, 24), At(12))
  {
    InitialInv(64);
    var bs := Initial(64).blocks;
    assert Request(0xffff_fffd) == 12 && IndexOf(bs, 0) == 0 && FindFit(bs, 0, 12, 64) == 0;
    var taken := [Block(0, 24, true), Block(24, 76, false)];
    assert Taken(bs, 0, 12) == taken;
    assert FirstFree(taken, 0, 76) == 24;
  }

  // ----- a size that wraps in rt_realloc -----

  const EMPTIED := Heap([Block(0, 12, true), Block(12, 140, false)], 12, 12, 52)

  lemma ThenWrap()
    requires Inv(TAKEN1, 128)
    ensures IsLive(TAKEN1.blocks, 12) && Realloc(TAKEN1, 128, At(12), 0xffff_fffd) == (EMPTIED, At(12))
  {
    assert IndexOf(TAKEN1.blocks, 0) == 0;
    WrappedRealloc(TAKEN1, 128, 12, 0xffff_fffd);
    hide Realloc;
    var cut := [Block(0, 12, true), Block(12, 52, false), Block(52, 140, false)];
    assert CutAt(TAKEN1, 0, 0).blocks == cut;
    assert FuseBlocks(cut, 1) == EMPTIED.blocks;
  }

  /** On a heap of 128 bytes, of which 40 were asked for: rt_realloc to 0xfffffffd bytes returns the block with
      room for none, and the header of a free block where its contents began. */
  lemma WrappedReallocEmpties()
    ensures Inv(Initial(128), 128) && LegalRun(Initial(128), 128, [OpMalloc(40)])
    ensures var h := After(Initial(128), 128, [OpMalloc(40)]);
      && IsLive(h.blocks, 12) && Covers(h.blocks, 12, 40) && Realloc(h, 128, At(12), 0xffff_fffd) == (EMPTIED, At(12))
    ensures !Covers(EMPTIED.blocks, 12, 1) && forall c :: Image(c, EMPTIED.blocks, 140) ==> c[12] == MAGIC
  {
    HeapsHold();
    ThenWrap();
    assert IndexOf(EMPTIED.blocks, 0) == 0 && IndexOf(TAKEN1.blocks, 0) == 0;
    forall c | Image(c, EMPTIED.blocks, 140)
      ensures c[12] == MAGIC
    {
      assert BlockImage(c, EMPTIED.blocks, 1);
    }
    hide Malloc, Realloc, Inv, LegalRun, After, IndexOf;
    assert ValidSize(128);
    RunNone(TAKEN1, 128);
    RunCons(Initial(128), 128, OpMalloc(40), []);
    assert [OpMalloc(40)] + [] == [OpMalloc(40)];
  }

  // ----- a heap too small to search -----

  /** The headers rt_system_heap_init writes when the range holds nothing else. */
  const EMPTY: seq<int> :=
    [MAGIC, 0, 0, 0, 12, 0, 0, 0, 0, 0, 0, 0, MAGIC, 0, 1, 0, 12, 0, 0, 0, 12, 0, 0, 0]

  /** On a heap of no bytes a request of 0xfffffffd passes the size check and the search never ends. */
  lemma EmptyHeapHangs(k: nat)
    ensures Inv(Initial(0), 0) && Image(EMPTY, Initial(0).blocks, HEADER) && AlignUp(0xffff_fffd) <= 0
    ensures ScanContinues(EMPTY, 0, Request(0xffff_fffd), Chase(EMPTY, 0, k))
  {
    InitialInv(0);
    assert BlockImage(EMPTY, Initial(0).blocks, 0);
    TinyHeapScanNeverEnds(EMPTY, Initial(0), 0, k);
  }
}
