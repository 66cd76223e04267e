/** The start-up scan, which stops early in every sector, agrees with an exhaustive search of all the slots. */
module EepromScan {
  import opened Basics
  import opened FlashChip
  import opened EepromSpec

  /** Exhaustive search: the good block with the highest counter among the first `k` slots. */
  function Newest(cfg: Config, blocks: seq<Image>, k: nat): (d: Option<nat>)
    requires k <= |blocks|
    ensures d.Some? ==> d.value < k && cfg.Good(blocks[d.value])
    ensures d.Some? ==> forall s :: 0 <= s < k && cfg.Good(blocks[s]) ==> blocks[s].count <= blocks[d.value].count
    ensures d.Some? ==> forall s :: 0 <= s < d.value && cfg.Good(blocks[s]) ==> blocks[s].count < blocks[d.value].count
    ensures d.None? ==> forall s :: 0 <= s < k ==> !cfg.Good(blocks[s])
  {
    if k == 0 then None
    else
      var d := Newest(cfg, blocks, k - 1);
      if cfg.Good(blocks[k - 1]) && (d.None? || blocks[k - 1].count > blocks[d.value].count) then Some(k - 1) else d
  }

  /** The writer's order: within one sector the counters of good blocks rise with the address. */
  ghost predicate Rising(cfg: Config, blocks: seq<Image>)
    requires |blocks| == cfg.Slots()
  {
    forall s, t :: 0 <= s < t < |blocks| && cfg.SectorOf(s) == cfg.SectorOf(t)
      && cfg.Good(blocks[s]) && cfg.Good(blocks[t])
      ==> blocks[s].count < blocks[t].count
  }

  /** `top` is just above the highest non-empty slot in the range from `lo` to `hi`. */
  ghost predicate IsTop(blocks: seq<Image>, lo: nat, hi: nat, top: nat)
    requires hi <= |blocks|
  {
    lo < top <= hi && blocks[top - 1].count != 0 && forall s :: top <= s < hi ==> blocks[s].count == 0
  }

  ghost predicate AnyFilled(blocks: seq<Image>, lo: nat, hi: nat)
    requires hi <= |blocks|
  {
    exists s :: lo <= s < hi && blocks[s].count != 0
  }

  /** `t` is the highest slot of its range holding a good block with a counter above `best`. */
  ghost predicate Pick(cfg: Config, blocks: seq<Image>, lo: nat, hi: nat, best: nat, t: nat)
    requires hi <= |blocks|
  {
    && lo <= t < hi && cfg.Good(blocks[t]) && blocks[t].count > best
    && forall s :: t < s < hi && cfg.Good(blocks[s]) ==> blocks[s].count <= best
  }

  /** What scanning one sector finds, whatever was found before it. */
  ghost predicate Scanned(cfg: Config, blocks: seq<Image>, j: nat, ram: Ram, r: Ram)
    requires |blocks| == cfg.Slots() && j < 4 && |ram.dirty| == 4
  {
    var lo, hi := cfg.Start(j), cfg.Start(j) + cfg.n;
    && r.dirty == ram.dirty[j := ram.dirty[j] || AnyFilled(blocks, lo, hi)]
    && ((r == ram.(dirty := r.dirty)
         && forall s :: lo <= s < hi && cfg.Good(blocks[s]) ==> blocks[s].count <= ram.buffer.count)
        || (r.data.Some? && r.sector == j && IsTop(blocks, lo, hi, r.next)
            && Pick(cfg, blocks, lo, hi, ram.buffer.count, r.data.value)
            && r.buffer == ram.buffer.(count := blocks[r.data.value].count)))
  }

  lemma {:induction false} ScanDownFinds(cfg: Config, blocks: seq<Image>, j: nat, s: int, free: Option<nat>,
                                         marked: Ram, ram: Ram)
    requires |blocks| == cfg.Slots() && j < 4 && cfg.Start(j) - 1 <= s < cfg.Start(j) + cfg.n && |ram.dirty| == 4
    requires marked == ram.(dirty := ram.dirty[j := ram.dirty[j] || free.Some?])
    requires forall t :: s < t < cfg.Start(j) + cfg.n && cfg.Good(blocks[t]) ==> blocks[t].count <= ram.buffer.count
    requires free.None? ==> forall t :: s < t < cfg.Start(j) + cfg.n ==> blocks[t].count == 0
    requires free.Some? ==> free.value > s + 1 && IsTop(blocks, cfg.Start(j), cfg.Start(j) + cfg.n, free.value)
    ensures Scanned(cfg, blocks, j, ram, ScanDown(cfg, blocks, j, s, free, marked))
    decreases s + 1
  {
    if s < cfg.Start(j) {
    } else {
      var b := blocks[s];
      if b.count == 0 {
        ScanDownFinds(cfg, blocks, j, s - 1, free, marked, ram);
      } else {
        var top := if free.None? then Some(s + 1) else free;
        if b.crc == cfg.crc(b.count, b.data) && b.count > ram.buffer.count {
        } else {
          ScanDownFinds(cfg, blocks, j, s - 1, top, marked.(dirty := marked.dirty[j := true]), ram);
        }
      }
    }
  }

  /** The dirty bits after the first `j` sectors: those set before, and one for each sector holding anything. */
  ghost predicate DirtyUpTo(cfg: Config, blocks: seq<Image>, j: nat, ram: Ram, r: Ram)
    requires |blocks| == cfg.Slots() && j <= 4 && |ram.dirty| == 4
  {
    && |r.dirty| == 4
    && forall i :: 0 <= i < 4 ==>
         r.dirty[i] == (ram.dirty[i] || (i < j && AnyFilled(blocks, cfg.Start(i), cfg.Start(i) + cfg.n)))
  }

  /** The latest block, the active sector and the cursor after the first `j` sectors. */
  ghost predicate FoundUpTo(cfg: Config, blocks: seq<Image>, j: nat, ram: Ram, r: Ram)
    requires |blocks| == cfg.Slots() && j <= 4
  {
    && r.data == Newest(cfg, blocks, cfg.Start(j))
    && (r.data.None? ==> r == ram.(dirty := r.dirty))
    && (r.data.Some? ==>
          && r.sector == cfg.SectorOf(r.data.value)
          && IsTop(blocks, cfg.Start(r.sector), cfg.Start(r.sector) + cfg.n, r.next)
          && r.buffer == ram.buffer.(count := blocks[r.data.value].count))
  }

  /** Two good slots that both win the exhaustive search are the same slot. */
  lemma NewestIs(cfg: Config, blocks: seq<Image>, k: nat, d: nat)
    requires d < k <= |blocks| && cfg.Good(blocks[d])
    requires forall s :: 0 <= s < k && cfg.Good(blocks[s]) ==> blocks[s].count <= blocks[d].count
    requires forall s :: 0 <= s < d && cfg.Good(blocks[s]) ==> blocks[s].count < blocks[d].count
    ensures Newest(cfg, blocks, k) == Some(d)
  {
    var w := Newest(cfg, blocks, k);
    assert w.Some?;
    assert cfg.Good(blocks[w.value]);
  }

  /**
   A sector with a better block than the sectors before it: the top-most of its better blocks is the newest so far.
   */
  lemma BetterInSector(cfg: Config, blocks: seq<Image>, j: nat, best: nat, d: nat)
    requires |blocks| == cfg.Slots() && j < 4 && Rising(cfg, blocks)
    requires forall s :: 0 <= s < cfg.Start(j) && cfg.Good(blocks[s]) ==> blocks[s].count <= best
    requires Pick(cfg, blocks, cfg.Start(j), cfg.Start(j + 1), best, d)
    ensures cfg.SectorOf(d) == j
    ensures Newest(cfg, blocks, cfg.Start(j + 1)) == Some(d)
  {
    var hi := cfg.Start(j + 1);
    forall s | 0 <= s < hi && cfg.Good(blocks[s])
      ensures blocks[s].count <= blocks[d].count && (s < d ==> blocks[s].count < blocks[d].count)
    {
      if s >= cfg.Start(j) { assert cfg.SectorOf(s) == j == cfg.SectorOf(d); }
    }
    NewestIs(cfg, blocks, hi, d);
  }

  /** Whatever the order of the blocks: the cursor is just above the highest non-empty slot of the sector chosen. */
  ghost predicate Topped(cfg: Config, blocks: seq<Image>, ram: Ram, r: Ram)
    requires |blocks| == cfg.Slots()
  {
    && (r.data.None? ==> r == ram.(dirty := r.dirty))
    && (r.data.Some? ==> r.sector < 4 && IsTop(blocks, cfg.Start(r.sector), cfg.Start(r.sector) + cfg.n, r.next))
  }

  lemma {:induction false} ScanSectorsTop(cfg: Config, blocks: seq<Image>, j: nat, ram: Ram)
    requires |blocks| == cfg.Slots() && j <= 4 && |ram.dirty| == 4 && ram.data.None?
    ensures DirtyUpTo(cfg, blocks, j, ram, ScanSectors(cfg, blocks, j, ram))
    ensures Topped(cfg, blocks, ram, ScanSectors(cfg, blocks, j, ram))
  {
    if j > 0 {
      ScanSectorsTop(cfg, blocks, j - 1, ram);
      var p := ScanSectors(cfg, blocks, j - 1, ram);
      ScanDownFinds(cfg, blocks, j - 1, cfg.Start(j) - 1, None, p, p);
      DirtyOneMore(cfg, blocks, j - 1, ram, p, ScanSectors(cfg, blocks, j, ram));
    }
  }

  lemma {:induction false} ScanSectorsFinds(cfg: Config, blocks: seq<Image>, j: nat, ram: Ram)
    requires |blocks| == cfg.Slots() && j <= 4 && |ram.dirty| == 4 && Rising(cfg, blocks)
    requires ram.data.None? && ram.buffer.count == 0
    ensures FoundUpTo(cfg, blocks, j, ram, ScanSectors(cfg, blocks, j, ram))
  {
    if j > 0 {
      ScanSectorsFinds(cfg, blocks, j - 1, ram);
      var p := ScanSectors(cfg, blocks, j - 1, ram);
      ScanDownFinds(cfg, blocks, j - 1, cfg.Start(j) - 1, None, p, p);
      FindOneMore(cfg, blocks, j - 1, ram, p, ScanSectors(cfg, blocks, j, ram));
    }
  }

  lemma DirtyOneMore(cfg: Config, blocks: seq<Image>, j: nat, ram: Ram, p: Ram, r: Ram)
    requires |blocks| == cfg.Slots() && j < 4 && |ram.dirty| == 4
    requires DirtyUpTo(cfg, blocks, j, ram, p) && Scanned(cfg, blocks, j, p, r)
    ensures DirtyUpTo(cfg, blocks, j + 1, ram, r)
  {
    assert forall i :: 0 <= i < 4 && i != j ==> r.dirty[i] == p.dirty[i];
  }

  lemma FindOneMore(cfg: Config, blocks: seq<Image>, j: nat, ram: Ram, p: Ram, r: Ram)
    requires |blocks| == cfg.Slots() && j < 4 && |ram.dirty| == 4 && |p.dirty| == 4 && Rising(cfg, blocks)
    requires ram.data.None? && ram.buffer.count == 0
    requires FoundUpTo(cfg, blocks, j, ram, p) && Scanned(cfg, blocks, j, p, r)
    ensures FoundUpTo(cfg, blocks, j + 1, ram, r)
  {
    var lo, hi := cfg.Start(j), cfg.Start(j + 1);
    assert hi == lo + cfg.n;
    if r == p.(dirty := r.dirty)
       && forall s :: lo <= s < hi && cfg.Good(blocks[s]) ==> blocks[s].count <= p.buffer.count {
      assert r.data == p.data && r.buffer == p.buffer;
      SameNewest(cfg, blocks, lo, hi);
    } else {
      BetterInSector(cfg, blocks, j, p.buffer.count, r.data.value);
    }
  }

  /** Nothing better in a further stretch of slots leaves the search result as it is. */
  lemma SameNewest(cfg: Config, blocks: seq<Image>, k: nat, m: nat)
    requires k <= m <= |blocks|
    requires forall s :: k <= s < m && cfg.Good(blocks[s]) ==>
      Newest(cfg, blocks, k).Some? && blocks[s].count <= blocks[Newest(cfg, blocks, k).value].count
    ensures Newest(cfg, blocks, m) == Newest(cfg, blocks, k)
  {
    var d := Newest(cfg, blocks, k);
    if d.Some? {
      NewestIs(cfg, blocks, m, d.value);
    } else {
      var w := Newest(cfg, blocks, m);
      assert w.None?;
    }
  }

  /**
   The scan's result: the slot an exhaustive search finds, the counter stored there, the sector it lies in, a
   cursor just above the highest non-empty slot of that sector, and exactly the sectors holding any non-empty
   slot marked dirty.
   */
  lemma ScanMeaning(cfg: Config, blocks: seq<Image>)
    requires |blocks| == cfg.Slots() && Rising(cfg, blocks)
    ensures DirtyUpTo(cfg, blocks, 4, FreshRam(cfg), Scan(cfg, blocks, FreshRam(cfg)))
    ensures FoundUpTo(cfg, blocks, 4, FreshRam(cfg), Scan(cfg, blocks, FreshRam(cfg)))
  {
    ScanTop(cfg, blocks);
    ScanSectorsFinds(cfg, blocks, 4, FreshRam(cfg));
  }

  lemma ScanTop(cfg: Config, blocks: seq<Image>)
    requires |blocks| == cfg.Slots()
    ensures Scan(cfg, blocks, FreshRam(cfg)) == ScanSectors(cfg, blocks, 4, FreshRam(cfg))
    ensures DirtyUpTo(cfg, blocks, 4, FreshRam(cfg), Scan(cfg, blocks, FreshRam(cfg)))
    ensures Topped(cfg, blocks, FreshRam(cfg), Scan(cfg, blocks, FreshRam(cfg)))
  {
    var ram := FreshRam(cfg);
    assert ram.(buffer := ram.buffer.(count := 0), data := None) == ram;
    ScanSectorsTop(cfg, blocks, 4, ram);
  }
}
