/** What calls of the driver contribute to the history of a device's zones. Whoever else uses the device
    meanwhile, a call returns nothing but zones it has taken itself; and with one segment an operation
    it returns, in the end, all of them. */
module CallHistories {
  import opened Sequences
  import opened HostMemory
  import opened MemoryPool
  import opened ZoneStack
  import opened DeviceMemory
  import opened Operations
  import opened Config
  import opened Plans
  import opened Reclaim
  import opened Results
  import opened SharedZones

  /** Takes of at most n zones by holder h, and the return of each of them, once. */
  ghost predicate Settles(own: seq<Event>, h: Holder, n: nat)
  {
    exists zs, back ::
      own == Takes(h, zs) + Returns(h, back) && |zs| <= n && Distinct(back) && Elements(back) == Elements(zs)
  }

  lemma SettlesHonest(own: seq<Event>, h: Holder, n: nat)
    requires Settles(own, h, n)
    ensures Honest(own, {}) && LeftWith(own, {}) == {} && TakesIn(own) <= n
  {
    var zs, back :|
      own == Takes(h, zs) + Returns(h, back) && |zs| <= n && Distinct(back) && Elements(back) == Elements(zs);
    CallHonest(h, zs, back);
    TakesCounted(h, zs, back);
  }

  /** Returning distinct zones among those taken. */
  lemma CallHonest(h: Holder, zs: seq<Memzone>, back: seq<Memzone>)
    requires Distinct(back) && Elements(back) <= Elements(zs)
    ensures var own := Takes(h, zs) + Returns(h, back);
            Honest(own, {}) && LeftWith(own, {}) == Elements(zs) - Elements(back)
  {
    assert {} + Elements(zs) == Elements(zs);
    forall z | z in back
      ensures z in Elements(zs)
    {
      assert z in Elements(back);
    }
    TakesHonest(h, zs, Returns(h, back), {});
    ReturnsHonest(h, back, Elements(zs));
  }

  lemma {:induction false} TakesCounted(h: Holder, zs: seq<Memzone>, back: seq<Memzone>)
    ensures TakesIn(Takes(h, zs) + Returns(h, back)) == |zs|
    decreases |zs|, |back|
  {
    var own := Takes(h, zs) + Returns(h, back);
    if zs != [] {
      assert own[1..] == Takes(h, zs[1..]) + Returns(h, back);
      TakesCounted(h, zs[1..], back);
    } else if back != [] {
      assert own[1..] == Takes(h, []) + Returns(h, back[1..]);
      TakesCounted(h, [], back[1..]);
    }
  }

  /** A call on its own, begun in a state with these zones, ends with the zones its takes and puts make. */
  lemma CallLeads(s: Lending, h: Holder, zs: seq<Memzone>, back: seq<Memzone>)
    requires CanTakeAll(s.zones, zs)
    ensures var own := Takes(h, zs) + Returns(h, back);
            && Leads(s, own, After(s, own)) && After(s, Takes(h, zs)).zones == TakeAll(s.zones, zs)
            && After(s, own).zones == PutAll(TakeAll(s.zones, zs), back)
  {
    TakesLead(s, h, zs);
    AfterConcat(s, Takes(h, zs), Returns(h, back));
    ReturnsLead(After(s, Takes(h, zs)), h, back);
  }

  /** A successful Compress whose result is recycled: the events of its holder h, and that running them
      is what the call and Recycle do to the zones. */
  lemma CompressThenRecycle(codec: Codec, m0: Memory, m: Memory, st0: Zones, st: Zones, cfg: Settings, input: Slice, p: Progress,
                            buffers: seq<Slice>, memzones: ZoneMap, size: nat, s: Lending, h: Holder)
    requires Finished(codec, m0, m, st0, st, cfg, input, p, buffers)
    requires cfg.seg > 0 && st0.WellFormed() && Served(memzones, size, st) && s.zones == st0
    ensures var used := p.Holding(codec, m0, cfg, input);
            var own := Takes(h, p.zones) + Returns(h, Reverse(used));
            && Honest(own, {}) && LeftWith(own, {}) == Elements(p.zones) - Elements(used)
            && Leads(s, own, After(s, own)) && After(s, Takes(h, p.zones)).zones == st
            && After(s, own).zones == PutSlices(st, memzones, Reverse(buffers))
            && (cfg.sgl == 1 && codec.Lawful() ==> Settles(own, h, CeilDiv(input.len, cfg.seg)))
  {
    var used := p.Holding(codec, m0, cfg, input);
    var back := Reverse(used);
    ResultPuts(codec, m0, m, st0, st, cfg, input, p.zones, used, buffers, memzones, size);
    ReverseDistinct(used);
    ReverseElements(used);
    assert Elements(back) == Elements(used) <= Elements(p.zones);
    CallHonest(h, p.zones, back);
    CallLeads(s, h, p.zones, back);
  }

  /** What a failed Compress gives back are distinct zones it has taken. */
  lemma FailedReturns(codec: Codec, m0: Memory, cfg: Settings, input: Slice, offset: nat, zones: seq<Memzone>, more: seq<Memzone>,
                      c: nat, st0: Zones, st': Zones) returns (back: seq<Memzone>)
    requires GaveBack(codec, m0, cfg, input, offset, zones, more, c, st0, st') && st0.WellFormed()
    ensures CanTakeAll(st0, zones + more) && |zones + more| <= CeilDiv(input.len, cfg.seg)
    ensures Distinct(back) && Elements(back) <= Elements(zones + more)
    ensures st' == PutAll(TakeAll(st0, zones + more), back)
    ensures st'.occupied == st0.occupied ==> Elements(back) == Elements(zones + more)
  {
    hide TakeAll, CanTakeAll;
    var jobs, groups := CompressJobs(cfg, input, offset, zones), Chunks(zones, cfg.sgl);
    var used, passed, rest := Used(codec, m0, jobs, groups, c), Passed(groups, c), Rest(groups, c) + more;
    var taken := zones + more;
    PlanGroups(cfg, input, offset, zones);
    PassedRest(groups, c);
    ConcatAssociative(passed, Rest(groups, c), more);
    TakeAllShape(st0, taken);
    SplitDistinct(passed, rest);
    UsedWithinPassed(codec, m0, jobs, groups, c);
    BothDistinct(used, passed, rest);
    back := Reverse(used) + rest;
    TwoParts(used, passed, rest, taken, st0.occupied);
    PutAllExact(TakeAll(st0, taken), back);
    ConcatAssociative(TakeAll(st0, taken).free, Reverse(used), rest);
  }

  lemma TwoParts(used: seq<Memzone>, passed: seq<Memzone>, rest: seq<Memzone>, taken: seq<Memzone>, occupied: set<Memzone>)
    requires Distinct(used) && Distinct(rest) && (forall z :: z in used ==> z in passed && z !in rest)
    requires taken == passed + rest && Distinct(taken) && forall z :: z in taken ==> z !in occupied
    ensures var back := Reverse(used) + rest;
            && Distinct(back) && Elements(back) <= Elements(taken)
            && occupied + Elements(taken) - Elements(back) == occupied + (Elements(passed) - Elements(used))
            && (occupied + Elements(taken) - Elements(back) == occupied ==> Elements(back) == Elements(taken))
  {
    var back := Reverse(used) + rest;
    ReverseDistinct(used);
    ReverseElements(used);
    SplitDistinct(passed, rest);
    forall i, j | 0 <= i < |used| && 0 <= j < |rest|
      ensures Reverse(used)[i] != rest[j]
    {
      assert Reverse(used)[i] in Reverse(used);
    }
    assert Elements(back) == Elements(used) + Elements(rest);
    assert Elements(taken) == Elements(passed) + Elements(rest);
    assert forall z :: z in passed ==> z in taken;
    assert forall z :: z in passed ==> z !in rest;
  }

  /** A failed Compress, which gives back by itself. */
  lemma FailedCompress(codec: Codec, m0: Memory, cfg: Settings, input: Slice, p: Progress, st0: Zones, st': Zones, s: Lending, h: Holder)
      returns (back: seq<Memzone>)
    requires GaveBack(codec, m0, cfg, input, p.offset, p.zones, p.more, p.c, st0, st') && st0.WellFormed()
    requires s.zones == st0 && Within(m0, input)
    ensures var own := Takes(h, p.zones + p.more) + Returns(h, back);
            && Honest(own, {}) && LeftWith(own, {}) == Elements(p.zones + p.more) - Elements(back)
            && Leads(s, own, After(s, own)) && After(s, own).zones == st'
            && (cfg.sgl == 1 && codec.Lawful() ==> Settles(own, h, CeilDiv(input.len, cfg.seg)))
  {
    hide GaveBack, TakeAll, CanTakeAll, PutAll, Honest, LeftWith, After, AllPossible;
    back := FailedReturns(codec, m0, cfg, input, p.offset, p.zones, p.more, p.c, st0, st');
    CallHonest(h, p.zones + p.more, back);
    CallLeads(s, h, p.zones + p.more, back);
    if cfg.sgl == 1 && codec.Lawful() {
      NoneLost(codec, m0, cfg, input, p.offset, p.zones, p.more, p.c, st0, st');
    }
  }
}
