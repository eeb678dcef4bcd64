/**
 * The journal as the firmware runs it: the chip's slots in an array, and the cursor, sequence and failure
 * accounting updated in place. Each method is proved against the functions of the modules before.
 */
module FlashJournal {
  import opened Options
  import opened FlashLog
  import opened FlashAppend
  import opened FlashRuns
  import opened FlashRestore

  class Journal {
    const chip: array<Slot>
    const index: array<Index>
    var nextSequence: nat
    var nextSlot: nat
    var failSlot: FailSlot
    var failCount: nat
    var failSkipped: nat
    var failPaused: bool

    ghost predicate Valid()
      reads this
    {
      Geometry(chip.Length) && nextSlot < chip.Length
    }

    ghost function Flash(): Image
      reads chip
    {
      chip[..]
    }

    ghost function Memory(): Ram
      reads this
    {
      Ram(nextSequence, nextSlot)
    }

    ghost function Failure(): Fail
      reads this
    {
      Fail(failSlot, failCount, failSkipped, failPaused)
    }

    constructor (slots: nat, sources: nat)
      requires Geometry(slots)
      ensures Valid() && fresh(chip) && fresh(index)
      ensures chip.Length == slots && index.Length == sources
      ensures Flash() == Blank(slots).img && Failure() == NO_FAILURE
    {
      chip := new Slot[slots](_ => Erased);
      index := new Index[sources](_ => EMPTY);
      nextSequence, nextSlot := 0, 0;
      failSlot, failCount, failSkipped, failPaused := NoSlot, 0, 0, false;
    }

    /** Whether a run of slots reads back erased. */
    method RegionErased(first: nat, count: nat) returns (erased: bool)
      requires first + count <= chip.Length
      ensures erased <==> forall i | first <= i < first + count :: chip[i] == Erased
    {
      erased := true;
      for i := 0 to count
        invariant erased <==> forall k | first <= k < first + i :: chip[k] == Erased
      {
        if chip[first + i] != Erased {
          erased := false;
          return;
        }
      }
    }

    /** An erase, with whatever effect a failed or interrupted one has. */
    method EraseRange(first: nat, env: EraseEnv)
      requires first + PER_SECTOR <= chip.Length
      modifies chip
      ensures Flash() == EraseSector(old(Flash()), first, env)
    {
      for i := 0 to PER_SECTOR
        invariant forall k | 0 <= k < first || first + i <= k < chip.Length :: chip[k] == old(chip[k])
        invariant forall k | first <= k < first + i ::
          chip[k] == (if env.io.Ok? then Erased else Suffer(FateAt(env.fates, k - first), old(chip[k])))
      {
        chip[first + i] := if env.io.Ok? then Erased else Suffer(FateAt(env.fates, i), chip[first + i]);
      }
    }

    /** Enters a sector at its first slot. */
    method PrepareSectorFirst(first: nat, probe: Io, erase: EraseEnv) returns (status: Status)
      requires first + PER_SECTOR <= chip.Length
      modifies chip
      ensures Prepared(Flash(), first, status) == PrepareSector(old(Flash()), first, probe, erase)
    {
      if !probe.Ok? {
        return StatusOf(probe);
      }
      var erased := RegionErased(first, PER_SECTOR);
      if erased {
        return Ready;
      }
      EraseRange(first, erase);
      status := StatusOf(erase.io);
    }

    /** Finds the slot to program and moves the cursor off a torn one. */
    method PrepareNextSlot(env: AppendEnv) returns (slot: nat, status: Status)
      requires Valid()
      modifies this`nextSlot, chip
      ensures Valid() && slot == nextSlot
      ensures Prepared(Flash(), slot, status) == Prepare(old(Flash()), old(nextSlot), env)
    {
      slot := nextSlot;
      if slot % PER_SECTOR == 0 {
        status := PrepareSectorFirst(slot, env.probe, env.erase);
        return;
      }
      if !env.probe.Ok? {
        return slot, StatusOf(env.probe);
      }
      var erased := RegionErased(slot, 1);
      if erased {
        return slot, Ready;
      }
      // A torn program: the sector also holds the last records, so give up the rest of it.
      slot := NextSector(chip.Length, slot);
      nextSlot := slot;
      status := PrepareSectorFirst(slot, env.jumpProbe, env.erase);
    }

    /** One attempt without the accounting of its failure. */
    method AppendRecordAt(rec: Record, env: AppendEnv) returns (o: Outcome)
      requires Valid()
      modifies this`nextSlot, this`nextSequence, chip
      ensures Valid()
      ensures Appended(Flash(), Memory(), o) == Append(old(Flash()), old(Memory()), rec, env)
    {
      if nextSequence == 0 || rec.sequence != nextSequence {
        return Refused(0);
      }
      nextSequence := if nextSequence == SEQ_MAX then 0 else nextSequence + 1;
      var slot, status := PrepareNextSlot(env);
      match status {
        case Dark => return PowerLost;
        case Declined => return Refused(slot);
        case Ready =>
      }
      if env.body.io.Ok? || env.body.touched {
        chip[slot] := Torn;
      }
      if env.body.io.Cut? {
        return PowerLost;
      }
      if env.body.io.Ok? {
        if env.body.sound && env.commit.landed {
          chip[slot] := Committed(rec);
        }
        if env.commit.io.Cut? {
          return PowerLost;
        }
      }
      if env.verify.Cut? {
        return PowerLost;
      }
      if env.verify.Failed? || chip[slot] != Committed(rec) {
        return Refused(slot);
      }
      nextSlot := if slot + 1 < chip.Length then slot + 1 else 0;
      o := Acked(slot);
    }

    method NoteAppendFailure(slot: nat)
      requires Valid() && slot < chip.Length
      modifies this`nextSlot, this`failSlot, this`failCount, this`failSkipped, this`failPaused
      ensures Valid()
      ensures (nextSlot, Failure()) == NoteFailure(chip.Length, old(nextSlot), old(Failure()), slot)
    {
      if failSlot != At(slot) {
        if failSlot.At? {
          failSkipped := failSkipped + 1;
        }
        failSlot := At(slot);
        failCount := 0;
      }
      if failCount < 255 {
        failCount := failCount + 1;
      }
      if failSkipped >= BUDGET {
        failPaused := true;
        return;
      }
      if failCount < RETRY_LIMIT {
        return;
      }
      nextSlot := NextSector(chip.Length, slot);
      failSlot, failCount := NoSlot, 0;
      failSkipped := failSkipped + 1;
    }

    method NoteAppendSuccess()
      modifies this`failSlot, this`failCount, this`failSkipped, this`failPaused
      ensures Failure() == NO_FAILURE
    {
      failSlot, failCount, failSkipped, failPaused := NoSlot, 0, 0, false;
    }

    /** One attempt, as the run model takes it: `live` is the model's view of this object. */
    method AppendRecord(e: Event, ghost live: Live, ghost last: Option<Mark>) returns (o: Outcome)
      requires Valid() && e.Write? && live.ram == Memory() && live.fail == Failure()
      modifies this`nextSlot, this`nextSequence, this`failSlot, this`failCount, this`failSkipped, this`failPaused, chip
      ensures Valid()
      ensures var s := old(Sys(Flash(), Some(live), last));
        var s' := Step(s, e);
        && o == Attempt(s, e).outcome
        && Flash() == s'.img
        && (s'.live.Some? <==> !o.PowerLost?)
        && (s'.live.Some? ==> Memory() == s'.live.value.ram && Failure() == s'.live.value.fail)
    {
      o := AppendRecordAt(Record(nextSequence, e.source, e.scope, e.bucket, e.manifest, e.values), e.env);
      match o {
        case Acked(_) => NoteAppendSuccess();
        case Refused(slot) => NoteAppendFailure(slot);
        case PowerLost =>
      }
    }

    /** One sector of the first pass. */
    method ScanSector(sector: nat, highest0: nat, headSlot0: nat, valid0: nat)
      returns (highest: nat, headSlot: nat, valid: nat)
      requires sector + PER_SECTOR <= chip.Length
      requires HeadSoFar(Flash(), sector, highest0, headSlot0, valid0)
      ensures HeadSoFar(Flash(), sector + PER_SECTOR, highest, headSlot, valid)
    {
      highest, headSlot, valid := highest0, headSlot0, valid0;
      for slot := sector to sector + PER_SECTOR
        invariant HeadSoFar(Flash(), slot, highest, headSlot, valid)
      {
        HeadAndCountStep(Flash(), slot);
        if chip[slot].Committed? {
          valid := valid + 1;
          if chip[slot].rec.sequence > highest {
            highest, headSlot := chip[slot].rec.sequence, slot;
          }
        }
      }
    }

    /** First pass: the newest record, and how many records there are. */
    method FindHead(unreadable: set<nat>) returns (ok: bool, highest: nat, headSlot: nat, valid: nat)
      requires Valid()
      ensures ok ==> HeadSoFar(Flash(), chip.Length, highest, headSlot, valid)
      ensures unreadable == {} ==> ok
    {
      ok, highest, headSlot, valid := true, 0, 0, 0;
      var sector := 0;
      while sector < chip.Length
        invariant 0 <= sector <= chip.Length && sector % PER_SECTOR == 0
        invariant HeadSoFar(Flash(), sector, highest, headSlot, valid)
      {
        if sector in unreadable {
          ok := false;
          return;
        }
        highest, headSlot, valid := ScanSector(sector, highest, headSlot, valid);
        sector := sector + PER_SECTOR;
      }
    }

    /** One accepted record of the backward walk; `closed` when it ends its source's window. */
    method IndexRecord(scopes: seq<int>, slot: nat) returns (closed: bool)
      requires slot < chip.Length && chip[slot].Committed?
      requires chip[slot].rec.source < index.Length && Accepts(scopes, chip[slot].rec.source, chip[slot].rec)
      requires index[chip[slot].rec.source].done ==> index[chip[slot].rec.source].newest.Some?
      modifies index
      ensures var src := chip[slot].rec.source;
        index[..] == old(index[..])[src := Visit(Flash(), scopes, src, old(index[src]), slot)] &&
        closed == (!old(index[src]).done && index[src].done)
    {
      var src := chip[slot].rec.source;
      var bucket := chip[slot].rec.bucket;
      closed := false;
      if index[src].newest.None? {
        index[src] := index[src].(newest := Some(bucket));
      }
      if !index[src].done {
        if bucket < index[src].newest.value - (WIDTH - 1) {
          index[src] := index[src].(done := true);
          closed := true;
        } else if bucket <= index[src].newest.value && |index[src].slots| < WIDTH {
          index[src] := index[src].(slots := index[src].slots + [slot]);
        }
      }
    }

    /** One slot of the backward walk. */
    method VisitSlot(scopes: seq<int>, head: nat, ghost visited: nat, slot: nat) returns (isRecord: bool, closed: bool)
      requires head < chip.Length && visited < chip.Length && slot == Back(chip.Length, head, visited)
      requires Walked(Flash(), scopes, head, visited, index[..])
      modifies index
      ensures Walked(Flash(), scopes, head, visited + 1, index[..])
      ensures isRecord == IsRec(Flash(), slot)
      ensures Open(index[..]) == old(Open(index[..])) - if closed then 1 else 0
    {
      isRecord, closed := chip[slot].Committed?, false;
      ghost var before := index[..];
      if isRecord && chip[slot].rec.source < index.Length && Accepts(scopes, chip[slot].rec.source, chip[slot].rec) {
        var src := chip[slot].rec.source;
        WalkLists(Flash(), scopes, src, head, visited);
        closed := IndexRecord(scopes, slot);
        OpenUpdated(before, src, index[src]);
      }
      WalkedStep(Flash(), scopes, head, visited, before, index[..]);
    }

    /** Where the backward walk stands after `visited` slots. */
    ghost predicate InWalk(scopes: seq<int>, head: nat, visited: nat, seen: nat, remaining: nat, seenSlots: set<nat>)
      reads chip, index
      requires head < chip.Length && visited <= chip.Length
    {
      && Walked(Flash(), scopes, head, visited, index[..])
      && remaining == Open(index[..])
      && seen == |seenSlots| && Seen(Flash(), head, visited, seenSlots)
    }

    method WalkBack(scopes: seq<int>, head: nat, ghost visited: nat, slot: nat, seen0: nat, remaining0: nat,
                    ghost seenSlots0: set<nat>)
      returns (seen: nat, remaining: nat, ghost seenSlots: set<nat>)
      requires head < chip.Length && visited < chip.Length && slot == Back(chip.Length, head, visited)
      requires InWalk(scopes, head, visited, seen0, remaining0, seenSlots0)
      modifies index
      ensures InWalk(scopes, head, visited + 1, seen, remaining, seenSlots)
    {
      var isRecord, closed := VisitSlot(scopes, head, visited, slot);
      seenSlots := SeenAfter(Flash(), head, visited, seenSlots0);
      seen := if isRecord then seen0 + 1 else seen0;
      remaining := if closed then remaining0 - 1 else remaining0;
    }

    /** Second pass: walk back from the head and index each source's window. */
    method IndexSources(scopes: seq<int>, head: nat, valid: nat, unreadable: set<nat>) returns (ok: bool)
      requires Valid() && head < chip.Length && valid == Count(Flash(), chip.Length)
      requires forall s | 0 <= s < index.Length :: index[s] == EMPTY
      modifies index
      ensures ok ==> Walked(Flash(), scopes, head, chip.Length, index[..])
      ensures unreadable == {} ==> ok
    {
      ok := true;
      var slot, seen, remaining, visited := head, 0, index.Length, 0;
      ghost var seenSlots: set<nat> := {};
      OpenOfEmpty(index[..]);
      while visited < chip.Length && remaining > 0
        invariant 0 <= visited <= chip.Length && 0 <= seen && 0 <= remaining
        invariant visited < chip.Length ==> slot == Back(chip.Length, head, visited)
        invariant InWalk(scopes, head, visited, seen, remaining, seenSlots)
      {
        if slot in unreadable {
          ok := false;
          return;
        }
        seen, remaining, seenSlots := WalkBack(scopes, head, visited, slot, seen, remaining, seenSlots);
        visited := visited + 1;
        if seen >= valid {
          AllSeen(Flash(), head, visited, seenSlots);
          WalkedEndsEarly(Flash(), scopes, head, visited, index[..]);
          return;
        }
        slot := if slot > 0 then slot - 1 else chip.Length - 1;
      }
      if remaining == 0 {
        WalkedStaysDone(Flash(), scopes, head, visited, index[..]);
      }
    }

    /** Start of a boot: memory is blank, the cursor and the index come from the flash alone. */
    method Boot(scopes: seq<int>, unreadableSectors: set<nat>, unreadableSlots: set<nat>) returns (ok: bool)
      requires Valid()
      modifies this`nextSlot, this`nextSequence, this`failSlot, this`failCount, this`failSkipped, this`failPaused, index
      ensures Valid() && Failure() == NO_FAILURE
      ensures ok ==> Memory() == BootRam(Flash())
      ensures ok && Head(Flash()) >= 0 ==> Walked(Flash(), scopes, Head(Flash()), chip.Length, index[..])
      ensures unreadableSectors == unreadableSlots == {} ==> ok
    {
      failSlot, failCount, failSkipped, failPaused := NoSlot, 0, 0, false;
      forall s | 0 <= s < index.Length {
        index[s] := EMPTY;
      }
      var highest, headSlot, valid;
      ok, highest, headSlot, valid := FindHead(unreadableSectors);
      if !ok {
        return;
      }
      nextSequence := if highest == 0 then 1 else if highest == SEQ_MAX then 0 else highest + 1;
      nextSlot := if highest == 0 then 0 else if headSlot + 1 < chip.Length then headSlot + 1 else 0;
      if highest > 0 {
        ok := IndexSources(scopes, headSlot, valid, unreadableSlots);
      }
    }

    /** Replay the index of `src` oldest first into one block per ring of the batch. */
    method RestoreBatch(scopes: seq<int>, src: nat, firstRing: nat, batch: nat, unreadable: set<nat>)
      returns (ok: bool, blocks: array2<int>)
      requires Valid() && src < index.Length && index[src].newest.Some?
      requires forall i | 0 <= i < |index[src].slots| :: index[src].slots[i] < chip.Length
      ensures fresh(blocks) && blocks.Length0 == batch && blocks.Length1 == WIDTH
      ensures ok ==> forall b, i | 0 <= b < batch && 0 <= i < WIDTH ::
        blocks[b, i] == Replay(Flash(), scopes, src, firstRing + b, index[src].newest.value - (WIDTH - 1),
                               index[src].slots, 0)[i]
      ensures unreadable == {} ==> ok
    {
      ok := true;
      blocks := new int[batch, WIDTH]((_, _) => NO_READING);
      var slots := index[src].slots;
      var newest := index[src].newest.value;
      var oldest := newest - (WIDTH - 1);
      var k := |slots|;
      while k > 0
        invariant 0 <= k <= |slots|
        invariant forall b, i | 0 <= b < batch && 0 <= i < WIDTH ::
          blocks[b, i] == Replay(Flash(), scopes, src, firstRing + b, oldest, slots, k)[i]
      {
        k := k - 1;
        var slot := slots[k];
        if slot in unreadable {
          ok := false;
          return;
        }
        var usable := chip[slot].Committed? && Accepts(scopes, src, chip[slot].rec) &&
          oldest <= chip[slot].rec.bucket <= newest;
        for b := 0 to batch
          invariant forall a, i | 0 <= a < batch && 0 <= i < WIDTH ::
            blocks[a, i] == Replay(Flash(), scopes, src, firstRing + a, oldest, slots, if a < b then k else k + 1)[i]
        {
          if usable && firstRing + b in chip[slot].rec.values {
            blocks[b, chip[slot].rec.bucket - oldest] := chip[slot].rec.values[firstRing + b];
          }
        }
      }
    }
  }

  /** How many of the first `k` slots hold a record. */
  function Count(img: Image, k: nat): (c: nat)
    requires k <= |img|
    ensures c <= k
  {
    if k == 0 then 0 else Count(img, k - 1) + if IsRec(img, k - 1) then 1 else 0
  }

  ghost predicate HeadSoFar(img: Image, k: nat, highest: nat, headSlot: nat, valid: nat)
    requires k <= |img|
  {
    && HeadUpTo(img, k) == (if highest == 0 then -1 else headSlot)
    && (highest > 0 ==> IsRec(img, headSlot) && Seq(img, headSlot) == highest)
    && valid == Count(img, k)
  }

  lemma HeadAndCountStep(img: Image, k: nat)
    requires k < |img|
    ensures Count(img, k + 1) == Count(img, k) + if IsRec(img, k) then 1 else 0
    ensures HeadUpTo(img, k + 1) ==
      var h := HeadUpTo(img, k);
      if IsRec(img, k) && Seq(img, k) > (if h < 0 then 0 else Seq(img, h)) then k else h
  {
  }

  ghost function Records(img: Image, k: nat): (s: set<nat>) {
    set p: nat | p < k && IsRec(img, p)
  }

  lemma {:induction false} CountIsSize(img: Image, k: nat)
    requires k <= |img|
    ensures |Records(img, k)| == Count(img, k)
  {
    if k > 0 {
      CountIsSize(img, k - 1);
      assert Records(img, k) == Records(img, k - 1) + if IsRec(img, k - 1) then {k - 1} else {};
    }
  }

  /** `s` holds exactly the records met in the first `k` steps back from `h`. */
  ghost predicate Seen(img: Image, h: nat, k: nat, s: set<nat>)
    requires h < |img|
  {
    forall p: nat :: p in s <==> IsRec(img, p) && Dist(|img|, p, h) < k
  }

  ghost function SeenAfter(img: Image, h: nat, k: nat, s: set<nat>): (s': set<nat>)
    requires h < |img| && k < |img| && Seen(img, h, k, s)
    ensures Seen(img, h, k + 1, s')
    ensures |s'| == |s| + if IsRec(img, Back(|img|, h, k)) then 1 else 0
  {
    if IsRec(img, Back(|img|, h, k)) then s + {Back(|img|, h, k)} else s
  }

  lemma AllSeen(img: Image, h: nat, k: nat, s: set<nat>)
    requires h < |img| && Seen(img, h, k, s) && |s| >= Count(img, |img|)
    ensures forall p | IsRec(img, p) :: Dist(|img|, p, h) < k
  {
    CountIsSize(img, |img|);
    var all := Records(img, |img|);
    assert s <= all;
    assert s + (all - s) == all;
    forall p | IsRec(img, p) ensures Dist(|img|, p, h) < k {
      assert p in all && p !in all - s;
    }
  }

  ghost predicate Walked(img: Image, scopes: seq<int>, h: nat, k: nat, ix: seq<Index>)
    requires h < |img| && k <= |img|
  {
    forall s | 0 <= s < |ix| :: ix[s] == Walk(img, scopes, s, h, k)
  }

  lemma WalkedStep(img: Image, scopes: seq<int>, h: nat, k: nat, before: seq<Index>, after: seq<Index>)
    requires h < |img| && k < |img| && Walked(img, scopes, h, k, before) && |after| == |before|
    requires var p := Back(|img|, h, k);
      var mine := IsRec(img, p) && img[p].rec.source < |before| && Accepts(scopes, img[p].rec.source, img[p].rec);
      after ==
        if mine then var src := img[p].rec.source; before[src := Visit(img, scopes, src, before[src], p)]
        else before
    ensures Walked(img, scopes, h, k + 1, after)
  {
  }

  lemma WalkedEndsEarly(img: Image, scopes: seq<int>, h: nat, k: nat, ix: seq<Index>)
    requires h < |img| && k <= |img| && Walked(img, scopes, h, k, ix)
    requires forall p | IsRec(img, p) :: Dist(|img|, p, h) < k
    ensures Walked(img, scopes, h, |img|, ix)
  {
    forall s | 0 <= s < |ix| ensures ix[s] == Walk(img, scopes, s, h, |img|) {
      WalkEndsEarly(img, scopes, s, h, k, |img|);
    }
  }

  lemma WalkedStaysDone(img: Image, scopes: seq<int>, h: nat, k: nat, ix: seq<Index>)
    requires h < |img| && k <= |img| && Walked(img, scopes, h, k, ix) && Open(ix) == 0
    ensures Walked(img, scopes, h, |img|, ix)
  {
    forall s | 0 <= s < |ix| ensures ix[s] == Walk(img, scopes, s, h, |img|) {
      NoneOpen(ix, s);
      WalkStaysDone(img, scopes, s, h, k, |img|);
    }
  }

  function Open(ix: seq<Index>): (n: nat) {
    if ix == [] then 0 else (if ix[0].done then 0 else 1) + Open(ix[1..])
  }

  lemma {:induction false} OpenOfEmpty(ix: seq<Index>)
    requires forall i | 0 <= i < |ix| :: !ix[i].done
    ensures Open(ix) == |ix|
  {
    if ix != [] {
      OpenOfEmpty(ix[1..]);
    }
  }

  lemma {:induction false} OpenUpdated(ix: seq<Index>, i: nat, v: Index)
    requires i < |ix| && (ix[i].done ==> v.done)
    ensures Open(ix[i := v]) == if v.done && !ix[i].done then Open(ix) - 1 else Open(ix)
  {
    if i == 0 {
      assert ix[i := v][1..] == ix[1..];
    } else {
      OpenUpdated(ix[1..], i - 1, v);
      assert ix[i := v][1..] == ix[1..][i - 1 := v];
    }
  }

  lemma {:induction false} NoneOpen(ix: seq<Index>, i: nat)
    requires i < |ix| && Open(ix) == 0
    ensures ix[i].done
  {
    if i > 0 {
      NoneOpen(ix[1..], i - 1);
    }
  }

  lemma {:induction false} WalkStaysDone(img: Image, scopes: seq<int>, src: nat, h: nat, k: nat, m: nat)
    requires h < |img| && k <= m <= |img| && Walk(img, scopes, src, h, k).done
    ensures Walk(img, scopes, src, h, m) == Walk(img, scopes, src, h, k)
  {
    WalkLists(img, scopes, src, h, k);
    if k < m {
      WalkStaysDone(img, scopes, src, h, k, m - 1);
    }
  }

  lemma {:induction false} WalkEndsEarly(img: Image, scopes: seq<int>, src: nat, h: nat, k: nat, m: nat)
    requires h < |img| && k <= m <= |img|
    requires forall p | IsRec(img, p) :: Dist(|img|, p, h) < k
    ensures Walk(img, scopes, src, h, m) == Walk(img, scopes, src, h, k)
  {
    if k < m {
      WalkEndsEarly(img, scopes, src, h, k, m - 1);
    }
  }
}
