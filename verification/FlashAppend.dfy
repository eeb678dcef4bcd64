/**
 * One attempt to append a record: reserving a sequence, preparing the slot, programming body and commit
 * word, and reading back; and the accounting of a failed attempt. Every flash operation may fail, or be
 * cut short by a power loss, with any effect such an operation can have.
 */
module FlashAppend {
  import opened FlashLog

  const RETRY_LIMIT: nat := 2
  const BUDGET: nat := 2
  const SEQ_MAX: nat := 0xFFFF_FFFF_FFFF_FFFF

  /** How a flash operation ends; `Cut` is a power loss during it. */
  datatype Io = Ok | Failed | Cut
  /** What an interrupted or failed erase leaves of one slot. */
  datatype Fate = Kept | Cleared | Ruined
  datatype EraseEnv = EraseEnv(io: Io, fates: seq<Fate>)
  /** `sound`: the body is programmed as written; `touched`: a failed write changed the slot. */
  datatype BodyEnv = BodyEnv(io: Io, sound: bool, touched: bool)
  datatype CommitEnv = CommitEnv(io: Io, landed: bool)
  /** `verify` is the reading back; a manifest that its cache refuses has failed it too. */
  datatype AppendEnv = AppendEnv(probe: Io, jumpProbe: Io, erase: EraseEnv, body: BodyEnv, commit: CommitEnv,
                                 verify: Io)

  /** The next sequence (0 when exhausted) and the cursor. */
  datatype Ram = Ram(next: nat, cursor: nat)
  datatype Outcome = Acked(slot: nat) | Refused(slot: nat) | PowerLost
  datatype Status = Ready | Declined | Dark
  datatype Prepared = Prepared(img: Image, slot: nat, status: Status)
  datatype Appended = Appended(img: Image, ram: Ram, outcome: Outcome)

  function FateAt(fates: seq<Fate>, i: nat): Fate {
    if i < |fates| then fates[i] else Ruined
  }

  function Suffer(fate: Fate, s: Slot): Slot {
    match fate
    case Kept => s
    case Cleared => Erased
    case Ruined => Torn
  }

  predicate SectorErased(img: Image, f: nat)
    requires f + PER_SECTOR <= |img|
  {
    forall i | f <= i < f + PER_SECTOR :: img[i] == Erased
  }

  function EraseSector(img: Image, f: nat, env: EraseEnv): (img': Image)
    requires f + PER_SECTOR <= |img|
    ensures |img'| == |img|
    ensures forall i | 0 <= i < |img| && !(f <= i < f + PER_SECTOR) :: img'[i] == img[i]
    ensures Lost(img, img')
    ensures env.io.Ok? ==> SectorErased(img', f)
  {
    seq(|img|, i requires 0 <= i < |img| =>
      if i < f || i >= f + PER_SECTOR then img[i]
      else if env.io.Ok? then Erased
      else Suffer(FateAt(env.fates, i - f), img[i]))
  }

  function StatusOf(io: Io): Status {
    match io
    case Ok => Ready
    case Failed => Declined
    case Cut => Dark
  }

  /** A sector entered at its first slot is erased unless all of it already is. */
  function PrepareSector(img: Image, f: nat, probe: Io, erase: EraseEnv): (p: Prepared)
    requires f + PER_SECTOR <= |img|
  {
    if !probe.Ok? then Prepared(img, f, StatusOf(probe))
    else if SectorErased(img, f) then Prepared(img, f, Ready)
    else Prepared(EraseSector(img, f, erase), f, StatusOf(erase.io))
  }

  /** The slot to program: the cursor's, or the next sector's first when the cursor's own is torn. */
  function Prepare(img: Image, cursor: nat, env: AppendEnv): (p: Prepared)
    requires Geometry(|img|) && cursor < |img|
  {
    if cursor % PER_SECTOR == 0 then PrepareSector(img, cursor, env.probe, env.erase)
    else if !env.probe.Ok? then Prepared(img, cursor, StatusOf(env.probe))
    else if img[cursor] == Erased then Prepared(img, cursor, Ready)
    else PrepareSector(img, NextSector(|img|, cursor), env.jumpProbe, env.erase)
  }

  /** The record exists once body and commit word are there, whatever the operations reported. */
  function Program(img: Image, slot: nat, rec: Record, env: AppendEnv): (img': Image)
    requires slot < |img|
  {
    if !env.body.io.Ok? then (if env.body.touched then img[slot := Torn] else img)
    else if env.body.sound && env.commit.landed then img[slot := Committed(rec)]
    else img[slot := Torn]
  }

  /** A sequence is used up by the attempt, and the last one leaves none. */
  function Reserve(next: nat): nat {
    if next == SEQ_MAX then 0 else next + 1
  }

  /** An attempt is acknowledged exactly when its record reads back. */
  function Append(img: Image, ram: Ram, rec: Record, env: AppendEnv): (r: Appended)
    requires Geometry(|img|) && ram.cursor < |img|
  {
    if ram.next == 0 || rec.sequence != ram.next then Appended(img, ram, Refused(0))
    else
      var p := Prepare(img, ram.cursor, env);
      var ram' := Ram(Reserve(ram.next), p.slot);
      if p.status.Dark? then Appended(p.img, ram', PowerLost)
      else if p.status.Declined? then Appended(p.img, ram', Refused(p.slot))
      else
        var img' := Program(p.img, p.slot, rec, env);
        if env.body.io.Cut? || (env.body.io.Ok? && env.commit.io.Cut?) || env.verify.Cut? then
          Appended(img', ram', PowerLost)
        else if env.verify.Ok? && img'[p.slot] == Committed(rec) then
          Appended(img', Ram(ram'.next, NextSlot(|img|, p.slot)), Acked(p.slot))
        else Appended(img', ram', Refused(p.slot))
  }

  /** The accounting of a failure episode: the failing slot, its failures in a row, sectors abandoned. */
  datatype FailSlot = NoSlot | At(slot: nat)
  datatype Fail = Fail(slot: FailSlot, count: nat, skipped: nat, paused: bool)
  const NO_FAILURE := Fail(NoSlot, 0, 0, false)

  /** The second failure at a slot abandons its sector while the budget lasts; then the cursor stays. */
  function NoteFailure(n: nat, cursor: nat, fail: Fail, slot: nat): (r: (nat, Fail))
    requires slot < n
  {
    var skipped := if fail.slot.At? && fail.slot.slot != slot then fail.skipped + 1 else fail.skipped;
    var before := if fail.slot == At(slot) then fail.count else 0;
    var count := if before < 255 then before + 1 else before;
    if skipped >= BUDGET then (cursor, Fail(At(slot), count, skipped, true))
    else if count >= RETRY_LIMIT then (NextSector(n, slot), Fail(NoSlot, 0, skipped + 1, fail.paused))
    else (cursor, Fail(At(slot), count, skipped, fail.paused))
  }

  /** All an attempt can do to slot `p`, the cursor and the next sequence. */
  lemma AppendEffect(img: Image, ram: Ram, rec: Record, env: AppendEnv, p: int)
    requires Geometry(|img|) && ram.cursor < |img|
    requires ram.next != 0 && rec.sequence == ram.next
    ensures var a := Append(img, ram, rec, env);
      var f := Prepare(img, ram.cursor, env).slot;
      && |a.img| == |img| && f < |img|
      && (IsRec(a.img, p) ==> (IsRec(img, p) && a.img[p] == img[p]) || (p == f && a.img[p] == Committed(rec)))
      && (IsRec(img, p) && !(IsRec(a.img, p) && a.img[p] == img[p]) ==> f % PER_SECTOR == 0 && f <= p < f + PER_SECTOR)
      && (f == ram.cursor ||
          (ram.cursor % PER_SECTOR != 0 && img[ram.cursor] != Erased && f == NextSector(|img|, ram.cursor)))
      && (a.outcome.Acked? ==> a.outcome.slot == f && a.img[f] == Committed(rec) && a.ram.cursor == NextSlot(|img|, f))
      && (!a.outcome.Acked? ==> a.ram.cursor == f)
      && (a.outcome.Refused? ==> a.outcome.slot == f)
      && a.ram.next == Reserve(ram.next)
  {
  }
}
