/**
 * The flash journal as an image of slots: where sectors begin, and the order its records are in. The image
 * stays in that order under loss, under an append at a clean cursor, and under clean jumps of the cursor.
 */
module FlashLog {
  const PER_SECTOR: nat := 16

  /** A journal record: `scope` stands for the identity it is stamped with, `values` for its payload by ring. */
  datatype Record = Record(sequence: nat, source: nat, scope: int, bucket: int, manifest: bool, values: map<nat, int>)

  /** A slot is torn when it is neither erased nor a record that reads back intact. */
  datatype Slot = Erased | Torn | Committed(rec: Record)

  type Image = seq<Slot>

  predicate Geometry(n: nat) {
    n % PER_SECTOR == 0 && n >= 4 * PER_SECTOR
  }

  /** The first slot of a slot's sector. */
  function First(slot: nat): (f: nat)
  {
    slot - slot % PER_SECTOR
  }

  function NextSlot(n: nat, slot: nat): (next: nat)
    requires slot < n
  {
    if slot + 1 < n then slot + 1 else 0
  }

  function NextSector(n: nat, slot: nat): (next: nat)
    requires slot < n
  {
    if First(slot) + PER_SECTOR < n then First(slot) + PER_SECTOR else 0
  }

  /** How far `b` lies ahead of `a` around the log. */
  function Dist(n: nat, a: nat, b: nat): (d: nat)
    requires a < n && b < n
  {
    if b >= a then b - a else b - a + n
  }

  predicate IsRec(img: Image, p: int) {
    0 <= p < |img| && img[p].Committed?
  }

  function Seq(img: Image, p: int): nat
    requires IsRec(img, p)
  {
    img[p].rec.sequence
  }

  /** Ahead of the cursor, and apart from its own slot, farther records are newer. */
  ghost predicate Ordered(img: Image, c: nat)
    requires c < |img|
  {
    forall p, q | IsRec(img, p) && IsRec(img, q) && p != c && q != c && Dist(|img|, c, p) < Dist(|img|, c, q) ::
      Seq(img, p) < Seq(img, q)
  }

  /** The record at `c` is newer than every other. */
  ghost predicate Newest(img: Image, c: nat) {
    IsRec(img, c) && forall p | IsRec(img, p) && p != c :: Seq(img, p) < Seq(img, c)
  }

  /** The record at `c` is older than every other. */
  ghost predicate Oldest(img: Image, c: nat) {
    IsRec(img, c) && forall p | IsRec(img, p) && p != c :: Seq(img, c) < Seq(img, p)
  }

  /** No record lies behind `c` in its sector. */
  ghost predicate RestFree(img: Image, c: nat) {
    forall p | IsRec(img, p) :: !(c < p < First(c) + PER_SECTOR)
  }

  /** The order that holds for a cursor at `c`. A record at the cursor itself is either an unacknowledged
      copy, newer than all, or the oldest one, about to be erased. */
  ghost predicate LogInv(img: Image, c: nat) {
    && Geometry(|img|)
    && c < |img|
    && Ordered(img, c)
    && (c % PER_SECTOR != 0 ==> RestFree(img, c))
    && (IsRec(img, c) ==> (Newest(img, c) && RestFree(img, c)) || (c % PER_SECTOR == 0 && Oldest(img, c)))
  }

  /** Records may be gone, but those that remain are what they were. */
  ghost predicate Lost(img: Image, img': Image) {
    |img'| == |img| && forall p | IsRec(img', p) :: img'[p] == img[p]
  }

  lemma LossKeepsOrder(img: Image, img': Image, c: nat)
    requires LogInv(img, c) && Lost(img, img')
    ensures LogInv(img', c)
  {
    forall p | IsRec(img', p) ensures IsRec(img, p) && Seq(img', p) == Seq(img, p) {
      assert img'[p] == img[p];
    }
  }

  lemma LandedKeepsOrder(img: Image, c: nat, rec: Record)
    requires LogInv(img, c) && RestFree(img, c) && !IsRec(img, c)
    requires forall p | IsRec(img, p) :: Seq(img, p) < rec.sequence
    ensures LogInv(img[c := Committed(rec)], c)
    ensures Newest(img[c := Committed(rec)], c)
  {
    var img' := img[c := Committed(rec)];
    assert forall p | IsRec(img', p) && p != c :: IsRec(img, p) && img'[p] == img[p];
  }

  lemma AdvanceKeepsOrder(img: Image, c: nat)
    requires LogInv(img, c) && Newest(img, c)
    ensures LogInv(img, NextSlot(|img|, c))
  {
  }

  /** Leaving the sector of `c` leaves no older record behind in it. */
  ghost predicate Abandonable(img: Image, c: nat) {
    c % PER_SECTOR != 0 ||
    forall p | IsRec(img, p) && First(c) <= p < First(c) + PER_SECTOR :: p == c && Newest(img, c)
  }

  lemma AbandonKeepsOrder(img: Image, c: nat)
    requires LogInv(img, c) && Abandonable(img, c)
    ensures LogInv(img, NextSector(|img|, c))
  {
  }

  /** No record has a higher sequence. */
  ghost predicate IsHead(img: Image, h: nat) {
    IsRec(img, h) && forall p | IsRec(img, p) :: Seq(img, p) <= Seq(img, h)
  }

  /** The slots from the head on are met in the same order from the slot behind it. */
  lemma BehindHeadOrdered(img: Image, c: nat, h: nat)
    requires LogInv(img, c) && IsHead(img, h)
    ensures Ordered(img, NextSlot(|img|, h))
  {
    var n, d := |img|, NextSlot(|img|, h);
    forall p, q | IsRec(img, p) && IsRec(img, q) && p != d && q != d && Dist(n, d, p) < Dist(n, d, q)
      ensures Seq(img, p) < Seq(img, q)
    {
      assert q == h || Dist(n, q, h) < Dist(n, p, h);
    }
  }

  lemma BootKeepsOrder(img: Image, c: nat, h: nat)
    requires LogInv(img, c) && IsHead(img, h)
    ensures LogInv(img, NextSlot(|img|, h))
  {
    BehindHeadOrdered(img, c, h);
  }
}
