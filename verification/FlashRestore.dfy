/**
 * The restore: one backward walk indexes the newest window of a source, and replaying the index from its
 * oldest entry rebuilds a ring of samples.
 */
module FlashRestore {
  import opened Options
  import opened FlashLog
  import opened FlashRuns
  import opened FlashOrder
  import opened Counting

  const WIDTH: nat := 288
  const NO_READING: int := -32768

  /** The newest bucket seen, the slots within a window of it in walking order, and whether an older one ended it. */
  datatype Index = Index(newest: Option<int>, slots: seq<nat>, done: bool)
  const EMPTY := Index(None, [], false)

  /** A data record of the source under its current scope. */
  predicate Accepts(scopes: seq<int>, src: nat, rec: Record) {
    rec.source == src && !rec.manifest && src < |scopes| && rec.scope == scopes[src]
  }

  predicate Mine(img: Image, scopes: seq<int>, src: nat, p: int) {
    IsRec(img, p) && Accepts(scopes, src, img[p].rec)
  }

  /** The slot `i` steps behind `h`. */
  function Back(n: nat, h: nat, i: nat): (p: nat)
    requires h < n && i < n
    ensures p < n && Dist(n, p, h) == i
  {
    if i <= h then h - i else h - i + n
  }

  /** One step of the walk. */
  function Visit(img: Image, scopes: seq<int>, src: nat, ix: Index, p: nat): (ix': Index) {
    if !Mine(img, scopes, src, p) then ix
    else
      var b := img[p].rec.bucket;
      var newest := if ix.newest.None? then b else ix.newest.value;
      if ix.done then Index(Some(newest), ix.slots, true)
      else if b < newest - (WIDTH - 1) then Index(Some(newest), ix.slots, true)
      else if b <= newest && |ix.slots| < WIDTH then Index(Some(newest), ix.slots + [p], false)
      else Index(Some(newest), ix.slots, false)
  }

  /** The index after `k` steps from the head. */
  function Walk(img: Image, scopes: seq<int>, src: nat, h: nat, k: nat): (ix: Index)
    requires h < |img| && k <= |img|
  {
    if k == 0 then EMPTY
    else Visit(img, scopes, src, Walk(img, scopes, src, h, k - 1), Back(|img|, h, k - 1))
  }

  /** Later records of the source carry no earlier buckets. */
  ghost predicate Monotone(img: Image, scopes: seq<int>, src: nat) {
    forall p, q | Mine(img, scopes, src, p) && Mine(img, scopes, src, q) && Seq(img, p) < Seq(img, q) ::
      img[p].rec.bucket <= img[q].rec.bucket
  }

  /** No bucket of the source was written twice. */
  ghost predicate Distinct(img: Image, scopes: seq<int>, src: nat) {
    forall p, q | Mine(img, scopes, src, p) && Mine(img, scopes, src, q) && p != q ::
      img[p].rec.bucket != img[q].rec.bucket
  }

  /** Every entry is a record of this source, within the window, and entries are in walking order. */
  ghost predicate Listed(img: Image, scopes: seq<int>, src: nat, h: nat, k: nat, ix: Index)
    requires h < |img| && k <= |img|
  {
    && |ix.slots| <= WIDTH
    && (ix.newest.None? <==> ix.slots == [])
    && (ix.done ==> ix.newest.Some?)
    && (forall i | 0 <= i < |ix.slots| ::
          Mine(img, scopes, src, ix.slots[i]) && Dist(|img|, ix.slots[i], h) < k &&
          ix.newest.value - (WIDTH - 1) <= img[ix.slots[i]].rec.bucket <= ix.newest.value)
    && (ix.slots != [] ==> img[ix.slots[0]].rec.bucket == ix.newest.value)
    && (forall i, j | 0 <= i < j < |ix.slots| :: Dist(|img|, ix.slots[i], h) < Dist(|img|, ix.slots[j], h))
  }

  /** A record the index left out: outside the window, or behind a full index. */
  ghost predicate LeftOut(img: Image, h: nat, ix: Index, p: nat)
    requires h < |img| && IsRec(img, p)
  {
    && ix.newest.Some?
    && (img[p].rec.bucket < ix.newest.value - (WIDTH - 1) ||
        (|ix.slots| == WIDTH && forall s | s in ix.slots :: s < |img| && Dist(|img|, s, h) < Dist(|img|, p, h)))
  }

  lemma OlderBucket(img: Image, scopes: seq<int>, src: nat, h: nat, p: nat, q: nat)
    requires h < |img| && ChronologicalFrom(img, h) && Monotone(img, scopes, src)
    requires Mine(img, scopes, src, p) && Mine(img, scopes, src, q) && Dist(|img|, p, h) < Dist(|img|, q, h)
    ensures img[q].rec.bucket <= img[p].rec.bucket
  {
    assert Seq(img, p) > Seq(img, q);
  }

  lemma {:induction false} WalkLists(img: Image, scopes: seq<int>, src: nat, h: nat, k: nat)
    requires h < |img| && k <= |img|
    ensures Listed(img, scopes, src, h, k, Walk(img, scopes, src, h, k))
  {
    if k > 0 {
      WalkLists(img, scopes, src, h, k - 1);
    }
  }

  /** Every record passed, or behind the point where the walk stopped for this source, is listed or left out
      for cause. */
  lemma {:induction false} WalkCompletes(img: Image, scopes: seq<int>, src: nat, h: nat, k: nat, q: nat)
    requires h < |img| && k <= |img|
    requires ChronologicalFrom(img, h) && Monotone(img, scopes, src) && Mine(img, scopes, src, q)
    requires Dist(|img|, q, h) < k || Walk(img, scopes, src, h, k).done
    ensures var ix := Walk(img, scopes, src, h, k); q in ix.slots || LeftOut(img, h, ix, q)
  {
    if k > 0 {
      var ix := Walk(img, scopes, src, h, k - 1);
      var p := Back(|img|, h, k - 1);
      WalkLists(img, scopes, src, h, k - 1);
      if Dist(|img|, q, h) < k - 1 || ix.done {
        WalkCompletes(img, scopes, src, h, k - 1, q);
      } else if q == p {
        if ix.slots != [] {
          OlderBucket(img, scopes, src, h, ix.slots[0], p);
        }
      } else {
        OlderBucket(img, scopes, src, h, p, q);
      }
    }
  }

  /** The record has a value of the ring for the bucket. */
  predicate Feeds(img: Image, ring: nat, b: int, p: int) {
    IsRec(img, p) && img[p].rec.bucket == b && ring in img[p].rec.values
  }

  /** One replayed record. */
  function Apply(img: Image, scopes: seq<int>, src: nat, ring: nat, oldest: int, block: seq<int>, p: nat)
    : (block': seq<int>)
    requires |block| == WIDTH
    ensures |block'| == WIDTH
  {
    if !Mine(img, scopes, src, p) then block
    else
      var b := img[p].rec.bucket;
      if b < oldest || b >= oldest + WIDTH || ring !in img[p].rec.values then block
      else block[b - oldest := img[p].rec.values[ring]]
  }

  /** The index replayed from its oldest entry to entry `k`. */
  function Replay(img: Image, scopes: seq<int>, src: nat, ring: nat, oldest: int, slots: seq<nat>, k: nat)
    : (block: seq<int>)
    requires k <= |slots|
    ensures |block| == WIDTH
    decreases |slots| - k
  {
    if k == |slots| then seq(WIDTH, i => NO_READING)
    else Apply(img, scopes, src, ring, oldest, Replay(img, scopes, src, ring, oldest, slots, k + 1), slots[k])
  }

  lemma {:induction false} ReplayKeepsNewest(img: Image, scopes: seq<int>, src: nat, ring: nat, oldest: int,
                                             slots: seq<nat>, k: nat, b: int)
    requires k <= |slots| && oldest <= b < oldest + WIDTH
    requires forall i | 0 <= i < |slots| :: Mine(img, scopes, src, slots[i])
    ensures var v := Replay(img, scopes, src, ring, oldest, slots, k)[b - oldest];
      || (v == NO_READING && forall i | k <= i < |slots| :: !Feeds(img, ring, b, slots[i]))
      || (exists i | k <= i < |slots| :: Feeds(img, ring, b, slots[i]) && v == img[slots[i]].rec.values[ring] &&
            forall j | k <= j < i :: !Feeds(img, ring, b, slots[j]))
    decreases |slots| - k
  {
    if k < |slots| {
      ReplayKeepsNewest(img, scopes, src, ring, oldest, slots, k + 1, b);
      if !Feeds(img, ring, b, slots[k]) {
        var v := Replay(img, scopes, src, ring, oldest, slots, k + 1)[b - oldest];
        if i :| k + 1 <= i < |slots| && Feeds(img, ring, b, slots[i]) && v == img[slots[i]].rec.values[ring] &&
              forall j | k + 1 <= j < i :: !Feeds(img, ring, b, slots[j])
        {
          assert forall j | k <= j < i :: !Feeds(img, ring, b, slots[j]);
        }
      }
    }
  }

  /** As many distinct buckets as the window is wide are all of them. */
  lemma FullCovers(f: seq<int>, lo: int, b: int)
    requires forall i, j | 0 <= i < j < |f| :: f[i] != f[j]
    requires forall i | 0 <= i < |f| :: lo <= f[i] < lo + |f|
    requires lo <= b < lo + |f|
    ensures b in f
  {
    SameSize(Elements(f), Interval(lo, |f|));
  }

  lemma FullIndexHolds(img: Image, scopes: seq<int>, src: nat, h: nat, ix: Index, q: nat)
    requires h < |img| && Listed(img, scopes, src, h, |img|, ix) && Distinct(img, scopes, src)
    requires |ix.slots| == WIDTH && Mine(img, scopes, src, q)
    requires ix.newest.value - (WIDTH - 1) <= img[q].rec.bucket <= ix.newest.value
    ensures q in ix.slots
  {
    var f := seq(WIDTH, i requires 0 <= i < WIDTH => img[ix.slots[i]].rec.bucket);
    FullCovers(f, ix.newest.value - (WIDTH - 1), img[q].rec.bucket);
    var i :| 0 <= i < WIDTH && f[i] == img[q].rec.bucket;
    assert ix.slots[i] == q;
  }

  /** With one record a bucket the index holds every record of the window. */
  lemma NothingLeftOut(img: Image, scopes: seq<int>, src: nat, h: nat, q: nat)
    requires h < |img| && ChronologicalFrom(img, h) && Monotone(img, scopes, src) && Mine(img, scopes, src, q)
    requires var ix := Walk(img, scopes, src, h, |img|); |ix.slots| < WIDTH || Distinct(img, scopes, src)
    ensures var ix := Walk(img, scopes, src, h, |img|);
      ix.newest.Some? && (q in ix.slots || img[q].rec.bucket < ix.newest.value - (WIDTH - 1))
  {
    var ix := Walk(img, scopes, src, h, |img|);
    WalkLists(img, scopes, src, h, |img|);
    WalkCompletes(img, scopes, src, h, |img|, q);
    if |ix.slots| == WIDTH && ix.newest.value - (WIDTH - 1) <= img[q].rec.bucket {
      if Dist(|img|, ix.slots[0], h) < Dist(|img|, q, h) {
        OlderBucket(img, scopes, src, h, ix.slots[0], q);
      }
      FullIndexHolds(img, scopes, src, h, ix, q);
    }
  }

  ghost predicate LatestFor(img: Image, scopes: seq<int>, src: nat, ring: nat, b: int, p: int) {
    && Mine(img, scopes, src, p) && Feeds(img, ring, b, p)
    && forall q | Mine(img, scopes, src, q) && Feeds(img, ring, b, q) :: Seq(img, q) <= Seq(img, p)
  }

  ghost predicate NewestFirst(img: Image, slots: seq<nat>) {
    forall i, j | 0 <= i < j < |slots| ::
      IsRec(img, slots[i]) && IsRec(img, slots[j]) && Seq(img, slots[i]) > Seq(img, slots[j])
  }

  lemma ReplayGivesLatest(img: Image, scopes: seq<int>, src: nat, ring: nat, oldest: int, slots: seq<nat>, b: int,
                          p: nat)
    requires oldest <= b < oldest + WIDTH
    requires forall i | 0 <= i < |slots| :: Mine(img, scopes, src, slots[i])
    requires NewestFirst(img, slots)
    requires p in slots && LatestFor(img, scopes, src, ring, b, p)
    ensures Replay(img, scopes, src, ring, oldest, slots, 0)[b - oldest] == img[p].rec.values[ring]
  {
    ReplayKeepsNewest(img, scopes, src, ring, oldest, slots, 0, b);
    var k :| 0 <= k < |slots| && slots[k] == p;
    forall i | 0 <= i < k ensures !Feeds(img, ring, b, slots[i]) {
      assert Seq(img, slots[i]) > Seq(img, p);
    }
  }

  lemma ReplayLeavesGap(img: Image, scopes: seq<int>, src: nat, ring: nat, oldest: int, slots: seq<nat>, b: int)
    requires oldest <= b < oldest + WIDTH
    requires forall i | 0 <= i < |slots| :: Mine(img, scopes, src, slots[i])
    requires forall p | Mine(img, scopes, src, p) :: !Feeds(img, ring, b, p)
    ensures Replay(img, scopes, src, ring, oldest, slots, 0)[b - oldest] == NO_READING
  {
    ReplayKeepsNewest(img, scopes, src, ring, oldest, slots, 0, b);
  }

  lemma IndexIsNewestFirst(img: Image, scopes: seq<int>, src: nat, h: nat)
    requires h < |img| && ChronologicalFrom(img, h)
    ensures var slots := Walk(img, scopes, src, h, |img|).slots;
      && (forall i | 0 <= i < |slots| :: Mine(img, scopes, src, slots[i]))
      && NewestFirst(img, slots)
  {
    WalkLists(img, scopes, src, h, |img|);
  }

  /** The restored value of ring `ring` in bucket `b`. */
  function Restored(img: Image, scopes: seq<int>, src: nat, ring: nat, h: nat, b: int): (v: int)
    requires h < |img|
    requires var ix := Walk(img, scopes, src, h, |img|);
      ix.newest.Some? && ix.newest.value - (WIDTH - 1) <= b <= ix.newest.value
  {
    var ix := Walk(img, scopes, src, h, |img|);
    var oldest := ix.newest.value - (WIDTH - 1);
    Replay(img, scopes, src, ring, oldest, ix.slots, 0)[b - oldest]
  }

  /** How many of the source's records the first `k` steps back from `h` meet. */
  function Met(img: Image, scopes: seq<int>, src: nat, h: nat, k: nat): (m: nat)
    requires h < |img| && k <= |img|
  {
    if k == 0 then 0
    else Met(img, scopes, src, h, k - 1) + if Mine(img, scopes, src, Back(|img|, h, k - 1)) then 1 else 0
  }

  /** The source's records that lie nearer to the head than slot `p`. */
  function InFront(img: Image, scopes: seq<int>, src: nat, h: nat, p: nat): nat
    requires h < |img| && p < |img|
  {
    Met(img, scopes, src, h, Dist(|img|, p, h))
  }

  /** Until the walk stops for a source it lists every record it meets, up to a full window. */
  lemma {:induction false} WalkCounts(img: Image, scopes: seq<int>, src: nat, h: nat, k: nat)
    requires h < |img| && k <= |img| && ChronologicalFrom(img, h) && Monotone(img, scopes, src)
    ensures var ix, met := Walk(img, scopes, src, h, k), Met(img, scopes, src, h, k);
      !ix.done ==> |ix.slots| == if met < WIDTH then met else WIDTH
  {
    if k > 0 {
      WalkCounts(img, scopes, src, h, k - 1);
      WalkLists(img, scopes, src, h, k - 1);
      var ix, p := Walk(img, scopes, src, h, k - 1), Back(|img|, h, k - 1);
      if ix.slots != [] && Mine(img, scopes, src, p) {
        OlderBucket(img, scopes, src, h, ix.slots[0], p);
      }
    }
  }

  /** Once it has stopped, everything farther back is older than the window. */
  lemma {:induction false} StopMeansOlder(img: Image, scopes: seq<int>, src: nat, h: nat, k: nat, q: nat)
    requires h < |img| && k <= |img| && ChronologicalFrom(img, h) && Monotone(img, scopes, src)
    requires Walk(img, scopes, src, h, k).done && Mine(img, scopes, src, q) && Dist(|img|, q, h) >= k
    ensures var ix := Walk(img, scopes, src, h, k); ix.newest.Some? && img[q].rec.bucket < ix.newest.value - (WIDTH - 1)
  {
    var ix, p := Walk(img, scopes, src, h, k - 1), Back(|img|, h, k - 1);
    WalkLists(img, scopes, src, h, k - 1);
    if ix.done {
      StopMeansOlder(img, scopes, src, h, k - 1, q);
    } else {
      OlderBucket(img, scopes, src, h, p, q);
    }
  }

  /** Later steps leave the newest bucket and what is listed of the slots already passed. */
  lemma {:induction false} LaterStepsKeep(img: Image, scopes: seq<int>, src: nat, h: nat, k: nat, m: nat, q: nat)
    requires h < |img| && k <= m <= |img| && q < |img| && Dist(|img|, q, h) < k
    ensures var ix, later := Walk(img, scopes, src, h, k), Walk(img, scopes, src, h, m);
      && (ix.newest.Some? ==> later.newest == ix.newest)
      && (q in later.slots <==> q in ix.slots)
  {
    if k < m {
      LaterStepsKeep(img, scopes, src, h, k, m - 1, q);
    }
  }

  /** A record is indexed if and only if it lies in the window and fewer than a window's worth of the
      source's records lie in front of it. */
  lemma IndexedExactly(img: Image, scopes: seq<int>, src: nat, h: nat, q: nat)
    requires h < |img| && ChronologicalFrom(img, h) && Monotone(img, scopes, src) && Mine(img, scopes, src, q)
    ensures var ix := Walk(img, scopes, src, h, |img|);
      && ix.newest.Some?
      && (q in ix.slots <==>
            img[q].rec.bucket >= ix.newest.value - (WIDTH - 1) && InFront(img, scopes, src, h, q) < WIDTH)
  {
    var k := Dist(|img|, q, h);
    var ix := Walk(img, scopes, src, h, k);
    assert Back(|img|, h, k) == q;
    WalkLists(img, scopes, src, h, k);
    WalkCounts(img, scopes, src, h, k);
    LaterStepsKeep(img, scopes, src, h, k + 1, |img|, q);
    if ix.done {
      StopMeansOlder(img, scopes, src, h, k, q);
    } else if ix.slots != [] {
      OlderBucket(img, scopes, src, h, ix.slots[0], q);
    }
  }

  /** With the window full of newer records the bucket is a gap. */
  lemma ReplayMisses(img: Image, scopes: seq<int>, src: nat, ring: nat, h: nat, b: int, p: nat)
    requires h < |img| && ChronologicalFrom(img, h) && Monotone(img, scopes, src)
    requires LatestFor(img, scopes, src, ring, b, p)
    requires var ix := Walk(img, scopes, src, h, |img|);
      p !in ix.slots && ix.newest.Some? && ix.newest.value - (WIDTH - 1) <= b <= ix.newest.value
    ensures Restored(img, scopes, src, ring, h, b) == NO_READING
  {
    var ix := Walk(img, scopes, src, h, |img|);
    WalkLists(img, scopes, src, h, |img|);
    WalkCompletes(img, scopes, src, h, |img|, p);
    ReplayKeepsNewest(img, scopes, src, ring, ix.newest.value - (WIDTH - 1), ix.slots, 0, b);
    forall i | 0 <= i < |ix.slots|
      ensures !Feeds(img, ring, b, ix.slots[i])
    {
      assert ix.slots[i] in ix.slots;
      assert Seq(img, ix.slots[i]) > Seq(img, p);
    }
  }

  /** Restore is last-writer-wins: the latest record of a bucket gives its value, if and only if fewer than a
      window's worth of the source's records lie in front of it; otherwise, and without a record, it is a gap. */
  lemma LastWriterWins(img: Image, scopes: seq<int>, src: nat, ring: nat, h: nat, b: int)
    requires IsHead(img, h) && Chronological(img) && Monotone(img, scopes, src)
    requires var ix := Walk(img, scopes, src, h, |img|);
      ix.newest.Some? && ix.newest.value - (WIDTH - 1) <= b <= ix.newest.value
    ensures forall p | LatestFor(img, scopes, src, ring, b, p) ::
      Restored(img, scopes, src, ring, h, b) ==
        if InFront(img, scopes, src, h, p) < WIDTH then img[p].rec.values[ring] else NO_READING
    ensures (forall p | Mine(img, scopes, src, p) :: !Feeds(img, ring, b, p)) ==>
      Restored(img, scopes, src, ring, h, b) == NO_READING
  {
    var ix := Walk(img, scopes, src, h, |img|);
    var oldest := ix.newest.value - (WIDTH - 1);
    assert ChronologicalFrom(img, h);
    IndexIsNewestFirst(img, scopes, src, h);
    forall p | LatestFor(img, scopes, src, ring, b, p)
      ensures Restored(img, scopes, src, ring, h, b) ==
        if InFront(img, scopes, src, h, p) < WIDTH then img[p].rec.values[ring] else NO_READING
    {
      IndexedExactly(img, scopes, src, h, p);
      if p in ix.slots {
        ReplayGivesLatest(img, scopes, src, ring, oldest, ix.slots, b, p);
      } else {
        ReplayMisses(img, scopes, src, ring, h, b, p);
      }
    }
    if forall p | Mine(img, scopes, src, p) :: !Feeds(img, ring, b, p) {
      ReplayLeavesGap(img, scopes, src, ring, oldest, ix.slots, b);
    }
  }

  /** With one record a bucket, or a window that is not full, no bucket's record has that many in front. */
  lemma InFrontOfDistinct(img: Image, scopes: seq<int>, src: nat, h: nat, q: nat)
    requires h < |img| && ChronologicalFrom(img, h) && Monotone(img, scopes, src) && Mine(img, scopes, src, q)
    requires var ix := Walk(img, scopes, src, h, |img|);
      (|ix.slots| < WIDTH || Distinct(img, scopes, src)) && ix.newest.Some? &&
      ix.newest.value - (WIDTH - 1) <= img[q].rec.bucket
    ensures InFront(img, scopes, src, h, q) < WIDTH
  {
    NothingLeftOut(img, scopes, src, h, q);
    IndexedExactly(img, scopes, src, h, q);
  }
}
