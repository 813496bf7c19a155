/** What the restore protocol keeps in flash, and what a reader makes of it, failing reads included. */
module RestoreModel {
  import opened Ticks
  import opened DecoderModel

  type Image = seq<Byte>
  type Digest = seq<Byte>

  const SECTOR_SIZE: nat := 0x1000
  const PAYLOAD_OFFSET: nat := 2 * SECTOR_SIZE
  const MAXIMUM_ATTEMPTS: nat := 3
  const MAXIMUM_IMAGE_SIZE: nat := 128 * 1024

  datatype RestoreState = Ready | Applying | Failed | Applied | Validated

  datatype Manifest = Manifest(state: RestoreState, sequence: Tick, attempts: Tick, imageSize: Tick,
      imageSha256: Digest)
  {
    /** The record that follows this one: `++sequence` on a uint32. */
    function Next(state: RestoreState): Manifest {
      this.(state := state, sequence := (sequence + 1) % WRAP)
    }

    /** The record published before an application: `++attempts` as well. */
    function NextAttempt(): Manifest {
      Next(Applying).(attempts := (attempts + 1) % WRAP)
    }
  }

  /** One manifest sector: bytes whose seal does not match their content, or a sealed record. */
  datatype Slot = Unreadable | Sealed(manifest: Manifest)

  predicate ValidManifest(m: Manifest, partitionSize: nat) {
    m.sequence != 0 && 0 < m.imageSize <= MAXIMUM_IMAGE_SIZE && PAYLOAD_OFFSET + m.imageSize <= partitionSize
  }

  predicate ValidSlot(slot: Slot, partitionSize: nat) {
    slot.Sealed? && ValidManifest(slot.manifest, partitionSize)
  }

  /** What `read_current_manifest` selects; `slot` is 0 or 1. */
  datatype Current = NoManifest | Current(manifest: Manifest, slot: nat)

  function Selected(slots: seq<Slot>, partitionSize: nat): (current: Current)
    requires |slots| == 2
    ensures current.Current? ==> current.slot < 2 && slots[current.slot] == Sealed(current.manifest)
                                 && ValidManifest(current.manifest, partitionSize)
  {
    var (first, second) := (ValidSlot(slots[0], partitionSize), ValidSlot(slots[1], partitionSize));
    if second && (!first || slots[1].manifest.sequence > slots[0].manifest.sequence) then Current(slots[1].manifest, 1)
    else if first then Current(slots[0].manifest, 0)
    else NoManifest
  }

  /** Two readable records are always consecutive. */
  ghost predicate Consecutive(slots: seq<Slot>, partitionSize: nat)
    requires |slots| == 2
  {
    ValidSlot(slots[0], partitionSize) && ValidSlot(slots[1], partitionSize) ==>
      || slots[0].manifest.sequence == slots[1].manifest.sequence + 1
      || slots[1].manifest.sequence == slots[0].manifest.sequence + 1
  }

  /** Everything an update of the spare slot can leave there: what it held, nothing readable, or
      the new record. */
  ghost predicate MidUpdate(before: seq<Slot>, after: seq<Slot>, spare: nat, next: Manifest)
    requires |before| == 2 && spare < 2
  {
    after == before || after == before[spare := Unreadable] || after == before[spare := Sealed(next)]
  }

  /** A manifest update is atomic: wherever it is cut off, a reader selects exactly the old record
      or exactly the new one, and readable records stay consecutive. */
  lemma UpdateIsAtomic(before: seq<Slot>, after: seq<Slot>, partitionSize: nat, next: Manifest)
    requires |before| == 2 && Consecutive(before, partitionSize)
    requires Selected(before, partitionSize).Current?
    requires var current := Selected(before, partitionSize);
             && current.manifest.sequence + 1 < WRAP
             && next.sequence == current.manifest.sequence + 1
             && ValidManifest(next, partitionSize)
             && MidUpdate(before, after, 1 - current.slot, next)
    ensures |after| == 2 && Consecutive(after, partitionSize)
    ensures var (old_, new_) := (Selected(before, partitionSize), Selected(after, partitionSize));
            && (new_ == old_ || new_ == Current(next, 1 - old_.slot))
            && (new_ == Current(next, 1 - old_.slot) <==> after == before[1 - old_.slot := Sealed(next)])
  {
  }

  /** The highest sequence number a record can carry, by state and recorded attempts: each attempt
      costs at most four records. */
  function SequenceLimit(state: RestoreState, attempts: nat): int {
    match state
    case Ready => 4 * attempts + 1
    case Applying => 4 * attempts - 2
    case Applied => 4 * attempts - 1
    case Validated => 4 * attempts
    case Failed => 4 * attempts + 2
  }

  ghost predicate RecordInBounds(m: Manifest) {
    && m.attempts <= MAXIMUM_ATTEMPTS
    && m.sequence <= SequenceLimit(m.state, m.attempts)
    && (m.state in {Applying, Applied, Validated} ==> m.attempts >= 1)
  }

  /** Fourteen is the ceiling, and it can be met. */
  lemma FourteenAtMost(m: Manifest)
    requires RecordInBounds(m)
    ensures m.sequence <= 14
    ensures m.sequence == 14 ==> m.state == Failed && m.attempts == MAXIMUM_ATTEMPTS
  {
  }

  /** The records the protocol may publish over `m`. */
  ghost predicate MayFollow(m: Manifest, next: Manifest) {
    || (m.state in {Ready, Applying} && m.attempts < MAXIMUM_ATTEMPTS && next == m.NextAttempt())
    || (m.state in {Ready, Applying} && next == m.Next(Failed))
    || (m.state == Applying && next == m.Next(Applied))
    || (m.state == Applied && next == m.Next(Validated))
    || (m.state in {Applied, Validated} && next == m.Next(Ready))
  }

  lemma FollowingKeepsBounds(m: Manifest, next: Manifest)
    requires RecordInBounds(m) && MayFollow(m, next)
    ensures RecordInBounds(next) && next.sequence == m.sequence + 1
  {
  }

  // ---- Reads that fail ----

  /** What a reader sees of the slots when only some can be read. */
  function Seen(slots: seq<Slot>, first: bool, second: bool): (seen: seq<Slot>)
    requires |slots| == 2
    ensures |seen| == 2
  {
    [if first then slots[0] else Unreadable, if second then slots[1] else Unreadable]
  }

  /** Two readable records are always a record and one that may be published over it. */
  ghost predicate Linked(slots: seq<Slot>, partitionSize: nat)
    requires |slots| == 2
  {
    ValidSlot(slots[0], partitionSize) && ValidSlot(slots[1], partitionSize) ==>
      MayFollow(slots[0].manifest, slots[1].manifest) || MayFollow(slots[1].manifest, slots[0].manifest)
  }

  ghost predicate InBounds(slots: seq<Slot>, partitionSize: nat)
    requires |slots| == 2
  {
    forall i | 0 <= i < 2 && ValidSlot(slots[i], partitionSize) :: RecordInBounds(slots[i].manifest)
  }

  lemma LinkedIsConsecutive(slots: seq<Slot>, partitionSize: nat)
    requires |slots| == 2 && Linked(slots, partitionSize) && InBounds(slots, partitionSize)
    ensures Consecutive(slots, partitionSize)
  {
    var (first, second) := (slots[0], slots[1]);
    if ValidSlot(first, partitionSize) && ValidSlot(second, partitionSize) {
      if MayFollow(first.manifest, second.manifest) {
        FollowingFacts(first.manifest, second.manifest);
      } else {
        FollowingFacts(second.manifest, first.manifest);
      }
    }
    hide MayFollow, RecordInBounds;
  }

  /** A read hides an announced attempt: it selects the record over which the attempt was announced,
      and not the announcement. */
  ghost predicate Hides(now: Current, read: Current) {
    now.Current? && read.Current? && read.slot == 1 - now.slot && now.manifest == read.manifest.NextAttempt()
  }

  /** Whatever slots cannot be read, a reader selects the current record, none, or the record over
      which the current one was published. */
  lemma ReadsSelectLinked(slots: seq<Slot>, partitionSize: nat, first: bool, second: bool)
    requires |slots| == 2 && Linked(slots, partitionSize) && InBounds(slots, partitionSize)
    ensures var (now, read) := (Selected(slots, partitionSize), Selected(Seen(slots, first, second), partitionSize));
            && (read == now || read.NoManifest?
                || (now.Current? && read.slot == 1 - now.slot && MayFollow(read.manifest, now.manifest)))
            && (read.Current? ==> slots[read.slot] == Sealed(read.manifest))
  {
    LinkedIsConsecutive(slots, partitionSize);
    forall i | 0 <= i < 2 && ValidSlot(slots[i], partitionSize)
      ensures slots[i].manifest.sequence <= 14
    {
      FourteenAtMost(slots[i].manifest);
    }
  }

  /** Exactly when an attempt goes uncounted. An attempt announced from what was read raises the
      count of attempts, unless the current record's slot could not be read, the other slot could,
      and the current record is itself the announcement of an attempt over the record read. */
  lemma AttemptUncountedExactly(slots: seq<Slot>, partitionSize: nat, first: bool, second: bool)
    requires |slots| == 2 && Linked(slots, partitionSize) && InBounds(slots, partitionSize)
    requires var read := Selected(Seen(slots, first, second), partitionSize);
             read.Current? && read.manifest.state in {Ready, Applying} && read.manifest.attempts < MAXIMUM_ATTEMPTS
    ensures var (now, read) := (Selected(slots, partitionSize), Selected(Seen(slots, first, second), partitionSize));
            && now.Current?
            && (read.manifest.NextAttempt().attempts <= now.manifest.attempts <==>
                  && !(if now.slot == 0 then first else second) && (if now.slot == 0 then second else first)
                  && ValidSlot(slots[1 - now.slot], partitionSize)
                  && now.manifest == slots[1 - now.slot].manifest.NextAttempt())
            && (read.manifest.NextAttempt().attempts <= now.manifest.attempts <==> Hides(now, read))
  {
    ReadsSelectLinked(slots, partitionSize, first, second);
  }

  /** Updating the spare slot from whatever record was read: the records stay linked and in bounds,
      and the current record becomes the one published or the one read, or stays. Only a read that
      missed the current record lowers the sequence number, and only one that hid an announced
      attempt lowers the count of attempts; either by one at most. */
  lemma UpdateKeepsLinks(before: seq<Slot>, after: seq<Slot>, partitionSize: nat, read: Current, next: Manifest)
    requires |before| == 2 && Linked(before, partitionSize) && InBounds(before, partitionSize)
    requires read.Current? && read.slot < 2 && before[read.slot] == Sealed(read.manifest)
    requires ValidManifest(read.manifest, partitionSize) && MayFollow(read.manifest, next)
    requires MidUpdate(before, after, 1 - read.slot, next)
    ensures |after| == 2 && Linked(after, partitionSize) && InBounds(after, partitionSize)
    ensures var (now, then_) := (Selected(before, partitionSize), Selected(after, partitionSize));
            && now.Current? && then_.Current?
            && then_ in {now, read, Current(next, 1 - read.slot)}
            && (after == before[1 - read.slot := Sealed(next)] ==> then_ == Current(next, 1 - read.slot))
            && now.manifest.sequence <= then_.manifest.sequence + (if read == now then 0 else 1)
            && now.manifest.sequence <= read.manifest.sequence + (if read == now then 0 else 1)
            && now.manifest.attempts <= then_.manifest.attempts + (if Hides(now, read) then 1 else 0)
  {
    FollowingFacts(read.manifest, next);
    var spare := before[1 - read.slot];
    if ValidSlot(spare, partitionSize) {
      if MayFollow(read.manifest, spare.manifest) {
        FollowingFacts(read.manifest, spare.manifest);
      } else {
        FollowingFacts(spare.manifest, read.manifest);
      }
    }
    hide MayFollow, RecordInBounds, Manifest.NextAttempt;
  }

  lemma FollowingFacts(m: Manifest, next: Manifest)
    requires RecordInBounds(m) && MayFollow(m, next)
    ensures RecordInBounds(next) && next.sequence == m.sequence + 1
    ensures next.imageSize == m.imageSize && next.imageSha256 == m.imageSha256
    ensures m.attempts <= next.attempts <= m.attempts + 1
    ensures next.attempts == m.attempts + 1 <==> next == m.NextAttempt()
  {
    FollowingKeepsBounds(m, next);
    FourteenAtMost(m);
    hide SequenceLimit;
  }
}
