/** Restoring a full NVS image across crashes. Flash operations may fail, and power may be lost
    between or inside any of them. What befalls each operation is settled beforehand by `fate`, one
    entry for every operation in the order of time; nothing is supposed about it, so that every proof
    is about every course of events. An operation that ends in `PowerLost` is the last of its boot. */
module RestoreStaging {
  import opened Ticks
  import opened DecoderModel
  import opened RestoreModel

  datatype Status = Ok | NotFound | InvalidSize | InvalidCrc | InvalidState | FlashError | PowerLost

  /** A mishap may go unnoticed, be reported, or be a loss of power; the operation may have taken
      effect all the same (the erase of a whole partition on either manifest sector), and a region may be
      left with any content. */
  datatype Outcome = Unnoticed | Reported | PowerCut
  datatype Fate = Fine | Mishap(outcome: Outcome, took: bool, tookSecond: bool, left: Image)

  /** The content an accident leaves, cut or filled up to the size of the region. */
  function Fitted(left: Image, size: nat): (image: Image)
    ensures |image| == size
  {
    seq(size, i requires 0 <= i < size => if i < |left| then left[i] else 255)
  }

  predicate Blank(image: Image) {
    forall i | 0 <= i < |image| :: image[i] == 255
  }

  /** A region after an erase. */
  function Erased(size: nat): (image: Image)
    ensures |image| == size && Blank(image)
  {
    seq(size, i => 255)
  }

  class RestoreStaging {
    const stagingSize: nat
    const nvsSize: nat
    const sha256: Image -> Digest
    const fate: nat -> Fate

    /** The two manifest sectors, the payload area behind them, and the NVS partition. */
    var slots: seq<Slot>
    var payload: Image
    var nvs: Image

    /** Flash operations so far. */
    var clock: nat

    /** The image last staged. */
    ghost var staged: Image
    /** NVS erases of the present staging. */
    ghost var erases: nat
    /** Manifest reads since the staging that missed the current record. */
    ghost var missed: nat
    /** Those of them that hid an announced attempt. */
    ghost var hidden: nat
    /** NVS has been started to be rewritten, and its new content not verified since. */
    ghost var torn: bool
    /** Every flash operation since the flag was raised did what it was asked to. */
    ghost var calm: bool
    /** Power is off: no flash operation can follow before it is on again. */
    ghost var off: bool
    /** The staging has ended: another one has begun to replace it, or its records are gone. */
    ghost var ended: bool

    constructor (stagingSize: nat, nvsSize: nat, sha256: Image -> Digest, fate: nat -> Fate)
      requires PAYLOAD_OFFSET <= stagingSize < WRAP
      ensures this.stagingSize == stagingSize && this.nvsSize == nvsSize && this.sha256 == sha256 && this.fate == fate
      ensures Inv() && ended && clock == 0 && erases == missed == hidden == 0 && !torn && calm && !off
    {
      this.stagingSize, this.nvsSize, this.sha256, this.fate := stagingSize, nvsSize, sha256, fate;
      slots := [Unreadable, Unreadable];
      payload := Erased(stagingSize - PAYLOAD_OFFSET);
      nvs := Erased(nvsSize);
      clock := 0;
      staged, erases, missed, hidden, torn, calm, off, ended := [], 0, 0, 0, false, true, false, true;
    }

    ghost predicate Valid()
      reads this`slots, this`payload, this`nvs
    {
      |slots| == 2 && PAYLOAD_OFFSET <= stagingSize < WRAP && |payload| == stagingSize - PAYLOAD_OFFSET
      && |nvs| == nvsSize
    }

    ghost function Now(): (current: Current)
      requires Valid()
      reads this`slots, this`payload, this`nvs
    {
      Selected(slots, stagingSize)
    }

    /** What the next manifest read will select. */
    ghost function WillRead(): (read: Current)
      requires Valid()
      reads this`slots, this`payload, this`nvs, this`clock
    {
      Selected(Seen(slots, fate(clock).Fine?, fate(clock + 1).Fine?), stagingSize)
    }

    /** The next `n` operations all succeed. */
    ghost predicate AllFine(n: nat)
      reads this`clock
    {
      forall i | clock <= i < clock + n :: fate(i).Fine?
    }

    ghost predicate Reported(at: nat) {
      fate(at).Mishap? && fate(at).outcome.Reported?
    }

    /** After `n` operations that succeed the next one reports a failure. */
    ghost predicate StopsAt(n: nat)
      reads this`clock
    {
      AllFine(n) && Reported(clock + n)
    }

    /** No flash operation since the flag was raised has failed, and none to come will. */
    ghost predicate Serene()
      reads this`clock, this`calm
    {
      calm && forall i | clock <= i :: fate(i).Fine?
    }

    /** What every call and crash keeps. Each erase is counted by a recorded attempt or by a read that
        hid one; while NVS is torn no record says that it is not. */
    ghost predicate Inv()
      reads this`slots, this`payload, this`nvs, this`staged, this`erases, this`missed, this`hidden, this`torn,
        this`ended
    {
      && Valid()
      && Linked(slots, stagingSize) && InBounds(slots, stagingSize)
      && erases <= MAXIMUM_ATTEMPTS + hidden && hidden <= missed
      && (!ended ==>
            && Now().Current? && |staged| == nvsSize
            && erases <= Now().manifest.attempts + hidden
            && RecordsFit())
    }

    /** Every readable record is one of the present staging. */
    ghost predicate RecordsFit()
      requires |slots| == 2
      reads this`slots, this`staged, this`torn
    {
      forall i | 0 <= i < 2 && ValidSlot(slots[i], stagingSize) ::
        DescribesStaged(slots[i].manifest) && (torn ==> slots[i].manifest.state in {Ready, Applying, Failed})
    }

    ghost predicate DescribesStaged(m: Manifest)
      reads this`staged
    {
      m.imageSize == |staged| && m.imageSha256 == sha256(staged)
    }

    ghost predicate PayloadMatches(m: Manifest)
      requires Valid()
      reads this`slots, this`payload, this`nvs
    {
      m.imageSize <= |payload| && sha256(payload[..m.imageSize]) == m.imageSha256
    }

    /** Every record in flash is one of the present staging, so that no erase goes uncounted. */
    ghost predicate Accounted()
      requires Valid()
      reads this`slots, this`payload, this`nvs, this`ended
    {
      ended ==> Now().NoManifest?
    }

    ghost predicate Injective() {
      forall x, y :: sha256(x) == sha256(y) ==> x == y
    }

    // ---- Flash primitives ----

    /** Power is lost during the operation. */
    ghost predicate Cut(operation: nat) {
      fate(operation).Mishap? && fate(operation).outcome.PowerCut?
    }

    method TakeFate() returns (f: Fate)
      requires !off
      modifies this`clock, this`calm
      ensures f == fate(old(clock)) && clock == old(clock) + 1 && calm == (old(calm) && f.Fine?)
      ensures old(Serene()) ==> Serene()
    {
      f := fate(clock);
      clock := clock + 1;
      calm := calm && f.Fine?;
    }

    method EraseSlot(slot: nat) returns (status: Status)
      requires Valid() && !off && slot < 2
      modifies this`slots, this`clock, this`off, this`calm
      ensures Valid() && (slots == old(slots) || slots == old(slots)[slot := Unreadable])
      ensures status in {Ok, FlashError, PowerLost} && (status == Ok ==> slots == old(slots)[slot := Unreadable])
      ensures clock == old(clock) + 1 && (status == Ok <==> fate(old(clock)).Fine?)
      ensures calm ==> old(calm) && status == Ok
      ensures old(Serene()) ==> Serene()
      ensures status == PowerLost <==> Cut(old(clock))
      ensures off == (status == PowerLost)
    {
      var f := TakeFate();
      if f.Fine? || f.took { slots := slots[slot := Unreadable]; }
      status := if f.Fine? then Ok else if f.outcome.PowerCut? then PowerLost else FlashError;
      off := status == PowerLost;
    }

    /** A write can also claim success and leave a torn record. */
    method WriteSlot(slot: nat, m: Manifest) returns (status: Status)
      requires Valid() && !off && slot < 2 && slots[slot] == Unreadable
      modifies this`slots, this`clock, this`off, this`calm
      ensures Valid() && (slots == old(slots) || slots == old(slots)[slot := Sealed(m)])
      ensures status in {Ok, FlashError, PowerLost} && clock == old(clock) + 1
      ensures fate(old(clock)).Fine? ==> status == Ok && slots == old(slots)[slot := Sealed(m)]
      ensures calm ==> old(calm) && status == Ok && slots == old(slots)[slot := Sealed(m)]
      ensures old(Serene()) ==> Serene()
      ensures status == PowerLost <==> Cut(old(clock))
      ensures Reported(old(clock)) ==> status == FlashError
      ensures off == (status == PowerLost)
    {
      var f := TakeFate();
      if f.Fine? || f.took { slots := slots[slot := Sealed(m)]; }
      status := if f.Fine? || f.outcome.Unnoticed? then Ok else if f.outcome.PowerCut? then PowerLost else FlashError;
      off := status == PowerLost;
    }

    /** Reading a region either yields its content or fails. */
    method Read(region: Image) returns (status: Status, image: Image)
      requires Valid() && !off
      modifies this`clock, this`off, this`calm
      ensures Valid() && status in {Ok, FlashError, PowerLost} && clock == old(clock) + 1
      ensures status == Ok ==> image == region
      ensures status == Ok <==> fate(old(clock)).Fine?
      ensures calm ==> old(calm) && status == Ok
      ensures old(Serene()) ==> Serene()
      ensures status == PowerLost <==> Cut(old(clock))
      ensures off == (status == PowerLost)
    {
      var f := TakeFate();
      image := if f.Fine? then region else [];
      status := if f.Fine? then Ok else if f.outcome.PowerCut? then PowerLost else FlashError;
      off := status == PowerLost;
    }

    /** NVS may be erased only under an Applying record that has been read back, once the payload has
        matched its digest; and the erase must be one that attempts and hidden attempts account for. */
    method EraseNvs(ghost m: Manifest, ghost slot: nat) returns (status: Status)
      requires Inv() && !off && slot < 2
      requires Now() == Current(m, slot) && m.state == Applying && (!ended ==> erases < m.attempts + hidden)
      requires PayloadMatches(m)
      modifies this`nvs, this`clock, this`off, this`calm, this`erases, this`torn
      ensures Inv() && torn && erases == old(erases) + (if ended then 0 else 1)
      ensures status in {Ok, FlashError, PowerLost} && clock == old(clock) + 1
      ensures status == Ok <==> fate(old(clock)).Fine?
      ensures status == Ok ==> Blank(nvs)
      ensures calm ==> old(calm) && status == Ok
      ensures old(Serene()) ==> Serene()
      ensures status == PowerLost <==> Cut(old(clock))
      ensures off == (status == PowerLost)
    {
      if !ended { ApplyingFollows(); }
      hide MayFollow, RecordInBounds, Selected, Blank, Erased, Serene, WillRead;
      erases, torn := erases + (if ended then 0 else 1), true;
      var f := TakeFate();
      nvs := if f.Fine? then Erased(nvsSize) else Fitted(f.left, nvsSize);
      status := if f.Fine? then Ok else if f.outcome.PowerCut? then PowerLost else FlashError;
      off := status == PowerLost;
    }

    /** The record over which an Applying record was published asked for an application as well. */
    lemma ApplyingFollows()
      requires Inv() && Now().Current? && Now().manifest.state == Applying
      ensures Now().manifest.attempts <= MAXIMUM_ATTEMPTS
      ensures forall i | 0 <= i < 2 && ValidSlot(slots[i], stagingSize) :: slots[i].manifest.state in {Ready, Applying}
    {
      ReadsSelectLinked(slots, stagingSize, Now().slot == 1, Now().slot == 0);
    }

    method WriteNvs(image: Image) returns (status: Status)
      requires Valid() && !off && |image| == nvsSize
      modifies this`nvs, this`clock, this`off, this`calm
      ensures Valid() && status in {Ok, FlashError, PowerLost} && clock == old(clock) + 1
      ensures fate(old(clock)).Fine? ==> status == Ok
      ensures Reported(old(clock)) ==> status == FlashError
      ensures calm ==> old(calm) && status == Ok && nvs == image
      ensures old(Serene()) ==> Serene()
      ensures status == PowerLost <==> Cut(old(clock))
      ensures off == (status == PowerLost)
    {
      var f := TakeFate();
      nvs := if f.Fine? || f.took then image else Fitted(f.left, nvsSize);
      status := if f.Fine? || f.outcome.Unnoticed? then Ok else if f.outcome.PowerCut? then PowerLost else FlashError;
      off := status == PowerLost;
    }

    method WritePayload(image: Image) returns (status: Status)
      requires Valid() && !off && |image| <= |payload|
      modifies this`payload, this`clock, this`off, this`calm
      ensures Valid() && status in {Ok, FlashError, PowerLost} && clock == old(clock) + 1
      ensures fate(old(clock)).Fine? ==> status == Ok && payload[..|image|] == image
      ensures calm ==> old(calm) && status == Ok && payload[..|image|] == image
      ensures old(Serene()) ==> Serene()
      ensures status == PowerLost <==> Cut(old(clock))
      ensures Reported(old(clock)) ==> status == FlashError
      ensures off == (status == PowerLost)
    {
      var f := TakeFate();
      payload := if f.Fine? || f.took then image + payload[|image|..] else Fitted(f.left, |payload|);
      status := if f.Fine? || f.outcome.Unnoticed? then Ok else if f.outcome.PowerCut? then PowerLost else FlashError;
      off := status == PowerLost;
    }

    // ---- Manifests ----

    /** A slot that cannot be read is passed over like an invalid one. A boot that
        loses power here is one that never began. */
    method SelectReadable() returns (current: Current)
      requires Valid() && !off
      modifies this`clock, this`calm
      ensures Valid() && current == old(WillRead()) && clock == old(clock) + 2
      ensures calm == (old(calm) && fate(old(clock)).Fine? && fate(old(clock) + 1).Fine?)
      ensures old(Serene()) ==> Serene()
    {
      current := NoManifest;
      ghost var seen := Seen(slots, fate(clock).Fine?, fate(clock + 1).Fine?);
      for index := 0 to 2
        invariant slots == old(slots) && clock == old(clock) + index
        invariant calm == (&& old(calm) && (index >= 1 ==> fate(old(clock)).Fine?)
                           && (index == 2 ==> fate(old(clock) + 1).Fine?))
        invariant current == if index == 0 then NoManifest
                             else if index == 1 then Selected([seen[0], Unreadable], stagingSize)
                             else Selected(seen, stagingSize)
      {
        var f := TakeFate();
        var candidate := slots[index];
        if f.Fine? && ValidSlot(candidate, stagingSize)
           && (current.NoManifest? || candidate.manifest.sequence > current.manifest.sequence) {
          current := Current(candidate.manifest, index);
        }
      }
    }

    /** A manifest read, which may miss the current record. */
    method ReadCurrentManifest() returns (current: Current)
      requires Inv() && !off
      modifies this`clock, this`calm, this`missed, this`hidden
      ensures Inv() && current == old(WillRead()) && clock == old(clock) + 2
      ensures missed == old(missed) + if current == Now() then 0 else 1
      ensures hidden == old(hidden) + if Hides(Now(), current) then 1 else 0
      ensures CanUpdate(current)
      ensures calm ==> old(calm) && current == Now()
      ensures old(Serene()) ==> Serene()
    {
      ReadsSelectLinked(slots, stagingSize, fate(clock).Fine?, fate(clock + 1).Fine?);
      assert Seen(slots, true, true) == slots;
      hide MayFollow, RecordInBounds, RecordsFit, Linked, InBounds;
      current := SelectReadable();
      missed := missed + if current == Now() then 0 else 1;
      hidden := hidden + if Hides(Now(), current) then 1 else 0;
    }

    /** What a manifest read establishes: the record read is in its slot, and one more erase would be
        accounted for if the read hid an announced attempt. */
    ghost predicate CanUpdate(read: Current)
      requires Valid()
      reads this`slots, this`payload, this`nvs, this`erases, this`hidden, this`ended
    {
      read.Current? ==>
        && Now().Current? && read.slot < 2 && slots[read.slot] == Sealed(read.manifest)
        && ValidManifest(read.manifest, stagingSize)
        && (!ended ==> erases + (if Hides(Now(), read) then 1 else 0) <= Now().manifest.attempts + hidden)
    }

    /** Erase, write, read back and compare. */
    method WriteManifest(m: Manifest, slot: nat) returns (status: Status)
      requires Valid() && !off && slot < 2
      modifies this`slots, this`clock, this`off, this`calm
      ensures Valid() && MidUpdate(old(slots), slots, slot, m)
      ensures status in {Ok, InvalidCrc, FlashError, PowerLost}
      ensures status == Ok ==> slots == old(slots)[slot := Sealed(m)]
      ensures old(AllFine(3)) ==> status == Ok && clock == old(clock) + 3
      ensures old(StopsAt(0)) ==> status == FlashError && clock == old(clock) + 1
      ensures old(StopsAt(1)) ==> status == FlashError && clock == old(clock) + 2
      ensures calm ==> old(calm) && status == Ok
      ensures old(Serene()) ==> Serene()
      ensures off == (status == PowerLost)
    {
      status := EraseSlot(slot);
      if status != Ok { return; }
      status := WriteSlot(slot, m);
      if status != Ok { return; }
      var f := TakeFate();
      status := if f.Mishap? && f.outcome.PowerCut? then PowerLost
                else if f.Fine? && slots[slot] == Sealed(m) then Ok else InvalidCrc;
      off := status == PowerLost;
    }

    method VerifyPayload(region: Image, expected: Digest) returns (status: Status)
      requires Valid() && !off
      modifies this`clock, this`off, this`calm
      ensures Valid() && status in {Ok, InvalidCrc, FlashError, PowerLost} && clock == old(clock) + 1
      ensures status == Ok ==> sha256(region) == expected
      ensures fate(old(clock)).Fine? ==> status == (if sha256(region) == expected then Ok else InvalidCrc)
      ensures calm ==> old(calm) && (status == Ok <==> sha256(region) == expected) && status in {Ok, InvalidCrc}
      ensures old(Serene()) ==> Serene()
      ensures off == (status == PowerLost)
    {
      var bytes;
      status, bytes := Read(region);
      if status != Ok { return; }
      status := if sha256(bytes) == expected then Ok else InvalidCrc;
    }

    /** Publishing a record that may follow the one read: whatever happens, the invariant holds and
        the current record is the old, the read or the new one. */
    method Publish(next: Manifest, read: Current) returns (status: Status)
      requires Inv() && !off && read.Current? && CanUpdate(read)
      requires MayFollow(read.manifest, next)
      requires !ended && torn ==> next.state in {Applying, Failed}
      modifies this`slots, this`clock, this`off, this`calm
      ensures Inv() && status in {Ok, InvalidCrc, FlashError, PowerLost}
      ensures old(Now()).Current? && Now().Current? && Now() in {old(Now()), read, Current(next, 1 - read.slot)}
      ensures status == Ok ==>
                Now() == Current(next, 1 - read.slot) && slots == old(slots)[1 - read.slot := Sealed(next)]
      ensures next.sequence == read.manifest.sequence + 1
      ensures old(Now()).manifest.sequence <= Now().manifest.sequence + (if read == old(Now()) then 0 else 1)
      ensures old(Now()).manifest.sequence <= read.manifest.sequence + (if read == old(Now()) then 0 else 1)
      ensures old(Now()).manifest.attempts <= Now().manifest.attempts + (if Hides(old(Now()), read) then 1 else 0)
      ensures old(AllFine(3)) ==> status == Ok && clock == old(clock) + 3
      ensures calm ==> old(calm) && status == Ok
      ensures old(Serene()) ==> Serene()
      ensures off == (status == PowerLost)
    {
      FollowingFacts(read.manifest, next);
      hide RecordInBounds, MayFollow, Linked, Selected, Hides, Serene;
      status := WriteManifest(next, 1 - read.slot);
      UpdateKeepsLinks(old(slots), slots, stagingSize, read, next);
    }

    // ---- The calls ----

    lemma FirstRecord(slots: seq<Slot>, m: Manifest)
      requires |slots| == 2 && slots[0] in {Unreadable, Sealed(m)} && slots[1] == Unreadable
      requires m.state == Ready && m.sequence == 1 && m.attempts == 0
      ensures Linked(slots, stagingSize) && InBounds(slots, stagingSize)
      ensures slots[0] == Sealed(m) && ValidManifest(m, stagingSize) ==> Selected(slots, stagingSize) == Current(m, 0)
    {
    }

    /** Writes and verifies the image before publishing it. NVS is not touched. The staging has begun
        once the record is in its slot, whatever becomes of the call after that. */
    method StageRestoreImage(image: Image) returns (status: Status)
      requires Inv() && !off
      modifies this`slots, this`payload, this`clock, this`off, this`calm, this`ended, this`staged, this`erases,
        this`missed, this`hidden, this`torn
      ensures Inv()
      ensures !ended && status != InvalidSize ==>
                && 0 < |image| <= MAXIMUM_IMAGE_SIZE && staged == image && erases == missed == hidden == 0 && !torn
                && |image| < WRAP && slots == [Sealed(FirstManifest(image)), Unreadable]
                && Now() == Current(FirstManifest(image), 0)
      ensures status == Ok && 0 < |image| <= MAXIMUM_IMAGE_SIZE ==> !ended && PayloadMatches(Now().manifest)
      ensures status == InvalidSize ==> slots == old(slots) && payload == old(payload) && ended == old(ended)
      // A call that has not begun the staging has left no record but those of an earlier one.
      ensures Accounted() || OnlyErased(old(slots))
      ensures status == Ok ==> Accounted()
      ensures old(AllFine(6)) && status != InvalidSize ==> status == Ok && clock == old(clock) + 6
      ensures calm ==> old(calm)
      ensures status == InvalidSize <==> |image| != nvsSize || PAYLOAD_OFFSET + |image| > stagingSize
      ensures calm ==> status in {Ok, InvalidSize}
      ensures old(Serene()) ==> Serene()
      ensures off == (status == PowerLost)
    {
      if |image| != nvsSize || PAYLOAD_OFFSET + |image| > stagingSize {
        return InvalidSize;
      }
      hide Selected, SequenceLimit, Linked, InBounds, Serene;
      status := WriteImage(image);
      if status != Ok { return; }
      status := PublishFirst(image);
    }

    /** The staging begins once its record is in its slot, whatever the call then reports. */
    method PublishFirst(image: Image) returns (status: Status)
      requires Inv() && !off && ended && slots == [Unreadable, Unreadable]
      requires |image| == nvsSize && PAYLOAD_OFFSET + |image| <= stagingSize
      modifies this`slots, this`clock, this`off, this`calm, this`ended, this`staged, this`erases, this`missed,
        this`hidden, this`torn
      ensures Inv() && status in {Ok, InvalidCrc, FlashError, PowerLost}
      ensures !ended ==> && 0 < |image| <= MAXIMUM_IMAGE_SIZE && staged == image
                         && erases == missed == hidden == 0 && !torn
                         && slots == [Sealed(FirstManifest(image)), Unreadable]
                         && Now() == Current(FirstManifest(image), 0)
      ensures status == Ok && 0 < |image| <= MAXIMUM_IMAGE_SIZE ==> !ended
      ensures Accounted()
      ensures old(AllFine(3)) ==> status == Ok && clock == old(clock) + 3
      ensures calm ==> old(calm) && status == Ok
      ensures old(Serene()) ==> Serene()
      ensures off == (status == PowerLost)
    {
      hide Selected, SequenceLimit, Linked, InBounds, MayFollow, RecordInBounds, Seen, Serene, StopsAt, AllFine,
        WillRead, Reported, PayloadMatches, Hides, CanUpdate;
      var manifest := FirstManifest(image);
      status := WriteManifest(manifest, 0);
      FirstRecord(slots, manifest);
      if slots[0] == Sealed(manifest) && ValidManifest(manifest, stagingSize) {
        staged, erases, missed, hidden, torn, ended := image, 0, 0, 0, false, false;
      }
    }

    /** The part of a staging that precedes its record. */
    method WriteImage(image: Image) returns (status: Status)
      requires Inv() && !off && PAYLOAD_OFFSET + |image| <= stagingSize
      modifies this`slots, this`payload, this`clock, this`off, this`calm, this`ended
      ensures Inv() && ended && status in {Ok, InvalidCrc, FlashError, PowerLost} && OnlyErased(old(slots))
      ensures status == Ok ==> slots == [Unreadable, Unreadable] && sha256(payload[..|image|]) == sha256(image)
      ensures old(AllFine(3)) ==> status == Ok && clock == old(clock) + 3
      ensures old(StopsAt(0)) ==> status == FlashError && clock == old(clock) + 1
      ensures old(StopsAt(1)) ==> status == FlashError && clock == old(clock) + 2
      ensures calm ==> old(calm) && status == Ok
      ensures old(Serene()) ==> Serene()
      ensures off == (status == PowerLost)
    {
      hide Selected, Linked, InBounds, Serene;
      status := EraseStagedRestore();
      if status != Ok { return; }
      status := WritePayload(image);
      if status != Ok { return; }
      status := VerifyPayload(payload[..|image|], sha256(image));
    }

    function FirstManifest(image: Image): Manifest
      requires |image| < WRAP
    {
      Manifest(Ready, 1, 0, |image|, sha256(image))
    }

    ghost predicate OnlyErased(before: seq<Slot>)
      requires |before| == 2
      reads this`slots
    {
      |slots| == 2 && forall i | 0 <= i < 2 :: slots[i] in {Unreadable, before[i]}
    }

    /** Erases the whole staging partition. Cut short, it may have erased either slot, both or none. */
    method EraseStagedRestore() returns (status: Status)
      requires Inv() && !off
      modifies this`slots, this`payload, this`clock, this`off, this`calm, this`ended
      ensures Inv() && ended && status in {Ok, FlashError, PowerLost} && clock == old(clock) + 1
      ensures OnlyErased(old(slots)) && (status == Ok ==> slots == [Unreadable, Unreadable] && Blank(payload))
      ensures status == Ok <==> fate(old(clock)).Fine?
      ensures calm ==> old(calm) && status == Ok
      ensures old(Serene()) ==> Serene()
      ensures status == PowerLost <==> Cut(old(clock))
      ensures off == (status == PowerLost)
    {
      hide RecordInBounds, MayFollow, Blank, Erased;
      ended := true;
      var f := TakeFate();
      if f.Fine? || f.took { slots := slots[0 := Unreadable]; }
      if f.Fine? || f.tookSecond { slots := slots[1 := Unreadable]; }
      payload := if f.Fine? then Erased(|payload|) else Fitted(f.left, |payload|);
      status := if f.Fine? then Ok else if f.outcome.PowerCut? then PowerLost else FlashError;
      off := status == PowerLost;
    }

    /** A record that asks for an application which may still be attempted and can succeed. */
    ghost predicate Applicable(m: Manifest)
      requires Valid()
      reads this`slots, this`payload, this`nvs
    {
      m.state in {Ready, Applying} && m.imageSize == nvsSize && m.attempts < MAXIMUM_ATTEMPTS && PayloadMatches(m)
    }

    /** The part of an application that follows a published Applying record. */
    method RewriteNvs(m: Manifest, slot: nat) returns (status: Status)
      requires Inv() && !off && slot < 2 && m.imageSize == nvsSize && PayloadMatches(m)
      requires Now() == Current(m, slot) && m.state == Applying
      requires !ended ==> erases < m.attempts + hidden
      modifies this`nvs, this`clock, this`off, this`calm, this`erases, this`torn
      ensures Inv() && status in {Ok, InvalidCrc, FlashError, PowerLost}
      ensures erases in {old(erases), old(erases) + if ended then 0 else 1}
      ensures status == Ok ==> sha256(nvs) == m.imageSha256 && !torn && erases == old(erases) + if ended then 0 else 1
      ensures old(AllFine(2)) && Reported(old(clock) + 2) ==>
                status == FlashError && clock == old(clock) + 3 && erases == old(erases) + if ended then 0 else 1
      ensures calm ==> old(calm) && status == Ok && nvs == payload[..m.imageSize]
      ensures old(Serene()) ==> Serene()
      ensures off == (status == PowerLost)
    {
      hide RecordInBounds, Linked, InBounds, Selected, Serene, Blank, WillRead, Seen, ValidManifest, MayFollow,
        DescribesStaged;
      var image;
      status, image := Read(payload[..m.imageSize]);
      if status != Ok { return; }
      status := EraseNvs(m, slot);
      if status != Ok { return; }
      status := FillNvs(image, m.imageSha256);
      if status == Ok { torn := false; }
    }

    /** Writes NVS and reads it back. */
    method FillNvs(image: Image, expected: Digest) returns (status: Status)
      requires Valid() && !off && |image| == nvsSize
      modifies this`nvs, this`clock, this`off, this`calm
      ensures Valid() && status in {Ok, InvalidCrc, FlashError, PowerLost}
      ensures status == Ok ==> sha256(nvs) == expected
      ensures Reported(old(clock)) ==> status == FlashError && clock == old(clock) + 1
      ensures calm ==> old(calm) && nvs == image && (sha256(image) == expected ==> status == Ok)
      ensures old(Serene()) ==> Serene()
      ensures off == (status == PowerLost)
    {
      hide Serene;
      status := WriteNvs(image);
      if status != Ok { return; }
      status := VerifyPayload(nvs, expected);
    }

    /** One attempt: announce it over the record read, rewrite NVS, record the outcome. */
    method Attempt(read: Current) returns (status: Status, applied: bool)
      requires Inv() && !off && read.Current? && CanUpdate(read) && Applicable(read.manifest)
      modifies this`slots, this`nvs, this`clock, this`off, this`calm, this`erases, this`torn
      ensures Inv() && old(Now()).Current? && Now().Current? && status in {Ok, InvalidCrc, FlashError, PowerLost}
      ensures old(Now()).manifest.sequence + (if applied then 1 else 0)
              <= Now().manifest.sequence + (if read == old(Now()) then 0 else 1)
      ensures erases == old(erases)
              || (erases == old(erases) + 1 && Now().manifest.attempts == read.manifest.attempts + 1)
      ensures applied ==> erases == old(erases) + if ended then 0 else 1
      ensures applied <==> status == Ok
      ensures applied ==> && Now().manifest.state == Applied && !torn && sha256(nvs) == Now().manifest.imageSha256
                          && (Injective() ==> nvs == payload[..nvsSize])
      ensures Now().manifest.state == Applied && Now() != old(Now()) ==>
                sha256(nvs) == Now().manifest.imageSha256 && !torn
      ensures old(AllFine(5)) && Reported(old(clock) + 5) ==>
                && status != Ok && erases == old(erases) + (if ended then 0 else 1)
                && (read.manifest.attempts + 1 < MAXIMUM_ATTEMPTS ==>
                      clock == old(clock) + 6
                      && slots == old(slots)[1 - read.slot := Sealed(read.manifest.NextAttempt())])
      ensures calm ==> old(calm) && applied && nvs == payload[..nvsSize]
      ensures old(Serene()) ==> Serene()
      ensures off == (status == PowerLost)
    {
      hide SequenceLimit, Linked, InBounds, RecordInBounds, Selected, Serene;
      applied := false;
      var manifest := read.manifest.NextAttempt();
      AttemptsCount(read);
      status := Publish(manifest, read);
      if status != Ok { return; }
      var current := Current(manifest, 1 - read.slot);
      assert PayloadMatches(manifest);
      status := RewriteNvs(manifest, current.slot);
      status, applied := RecordOutcome(current, status);
    }

    /** What an attempt leaves on record: Applied, if NVS was rewritten; nothing new, if another attempt
        may follow; and Failed after the last. */
    method RecordOutcome(current: Current, rewritten: Status) returns (status: Status, applied: bool)
      requires Inv() && off == (rewritten == PowerLost) && current.Current? && Now() == current && CanUpdate(current)
      requires current.manifest.state == Applying && rewritten in {Ok, InvalidCrc, FlashError, PowerLost}
      requires rewritten == Ok ==> !torn
      modifies this`slots, this`clock, this`off, this`calm
      ensures Inv() && Now().Current? && status in {Ok, InvalidCrc, FlashError, PowerLost}
      ensures applied <==> status == Ok
      ensures applied ==> rewritten == Ok
      ensures current.manifest.sequence + (if applied then 1 else 0) <= Now().manifest.sequence
      ensures Now().manifest.attempts == current.manifest.attempts
      ensures Now().manifest.imageSha256 == current.manifest.imageSha256
      ensures applied ==> Now().manifest.state == Applied
      ensures Now().manifest.state == Applied ==> rewritten == Ok
      ensures rewritten == FlashError && current.manifest.attempts < MAXIMUM_ATTEMPTS ==>
                slots == old(slots) && clock == old(clock)
      ensures calm ==> old(calm) && (rewritten == Ok ==> applied)
      ensures old(Serene()) ==> status == rewritten
      ensures rewritten == PowerLost ==> status == PowerLost && slots == old(slots) && clock == old(clock)
      ensures rewritten in {InvalidCrc, FlashError} && current.manifest.attempts >= MAXIMUM_ATTEMPTS
              && old(AllFine(3)) ==>
                status == rewritten && Now() == Current(current.manifest.Next(Failed), 1 - current.slot)
      ensures old(Serene()) ==> Serene()
      ensures off == (status == PowerLost)
    {
      assert Serene() ==> AllFine(3);
      hide SequenceLimit, Linked, InBounds, RecordInBounds, Selected, Serene, CanUpdate, RecordsFit;
      if rewritten == Ok {
        status := Publish(current.manifest.Next(Applied), current);
        return status, status == Ok;
      }
      status, applied := rewritten, false;
      if status == PowerLost || current.manifest.attempts < MAXIMUM_ATTEMPTS { return; }
      var published := Publish(current.manifest.Next(Failed), current);
      if published == PowerLost { status := PowerLost; }
    }

    /** The attempt announced over what was read leaves room for its erase. */
    lemma AttemptsCount(read: Current)
      requires Inv() && read.Current? && CanUpdate(read) && Applicable(read.manifest)
      ensures read.manifest.NextAttempt().attempts == read.manifest.attempts + 1
      ensures !ended ==> erases < read.manifest.NextAttempt().attempts + hidden
    {
      var now := Now();
      if !ended && read != now {
        if MayFollow(read.manifest, now.manifest) {
          FollowingFacts(read.manifest, now.manifest);
        } else {
          FollowingFacts(now.manifest, read.manifest);
        }
      }
      hide SequenceLimit;
    }

    /** What is done about a record that asks for an application. */
    method ApplyPending(read: Current) returns (status: Status, applied: bool)
      requires Inv() && !off && read.Current? && CanUpdate(read) && read.manifest.state in {Ready, Applying}
      modifies this`slots, this`nvs, this`clock, this`off, this`calm, this`erases, this`torn
      ensures Inv() && old(Now()).Current? && Now().Current?
      ensures status in {Ok, InvalidSize, InvalidCrc, FlashError, PowerLost}
      ensures old(Now()).manifest.sequence + (if applied then 1 else 0)
              <= Now().manifest.sequence + (if read == old(Now()) then 0 else 1)
      ensures erases == old(erases)
              || (erases == old(erases) + 1 && old(Applicable(read.manifest))
                  && Now().manifest.attempts == read.manifest.attempts + 1)
      ensures Now() != old(Now()) && Now() != read && Now().manifest.state == Applied ==>
                sha256(nvs) == Now().manifest.imageSha256 && !torn
      ensures applied ==> status == Ok && old(Applicable(read.manifest)) && Now().manifest.state == Applied
                          && sha256(nvs) == Now().manifest.imageSha256 && !torn
      ensures applied ==> erases == old(erases) + if ended then 0 else 1
      ensures applied && Injective() ==> nvs == payload[..nvsSize]
      ensures calm ==> old(calm) && (applied <==> old(Applicable(read.manifest)))
      ensures calm && !old(Applicable(read.manifest)) && read.manifest.imageSize == nvsSize ==>
                Now() == Follows(read, Failed)
      ensures calm && applied ==> nvs == payload[..nvsSize]
      ensures status == Ok && !applied ==> Now().manifest.state == Failed
      ensures old(Applicable(read.manifest) && AllFine(6)) && Reported(old(clock) + 6) ==>
                && status != Ok && erases == old(erases) + (if ended then 0 else 1)
                && (read.manifest.attempts + 1 < MAXIMUM_ATTEMPTS ==>
                      clock == old(clock) + 7
                      && slots == old(slots)[1 - read.slot := Sealed(read.manifest.NextAttempt())])
      ensures old(Serene()) ==> Serene()
      ensures off == (status == PowerLost)
    {
      hide SequenceLimit, Linked, InBounds, RecordInBounds, Selected, Hides, Serene;
      applied := false;
      var manifest := read.manifest;
      if manifest.imageSize != nvsSize { return InvalidSize, false; }
      if manifest.attempts >= MAXIMUM_ATTEMPTS {
        status := Publish(manifest.Next(Failed), read);
        return;
      }
      status := VerifyPayload(payload[..manifest.imageSize], manifest.imageSha256);
      if status != Ok {
        if status == PowerLost { return; }
        var published := Publish(manifest.Next(Failed), read);
        if published == PowerLost { status := PowerLost; }
        return;
      }
      status, applied := Attempt(read);
    }

    /** The next application will announce its attempt, erase NVS, and be refused the write. */
    ghost predicate CutAtWrite()
      requires Valid()
      reads this`slots, this`payload, this`nvs, this`clock
    {
      && WillRead().Current? && Applicable(WillRead().manifest)
      && (forall i | clock + 2 <= i < clock + 8 :: fate(i).Fine?) && Reported(clock + 8)
    }

    method ApplyStagedRestoreEarly() returns (status: Status, applied: bool)
      requires Inv() && !off
      modifies this`slots, this`nvs, this`clock, this`off, this`calm, this`erases, this`missed, this`hidden, this`torn
      ensures Inv() && status in {Ok, InvalidSize, InvalidCrc, FlashError, PowerLost}
      ensures missed == old(missed) + if old(WillRead()) == old(Now()) then 0 else 1
      ensures hidden == old(hidden) + if old(Hides(Now(), WillRead())) then 1 else 0
      // What was current stays current or is followed, but for a step back when it was not read.
      ensures old(Now()).Current? <==> Now().Current?
      ensures Now().Current? ==> old(Now()).manifest.sequence + (if applied then 1 else 0)
                                 <= Now().manifest.sequence + missed - old(missed)
      ensures old(WillRead()).NoManifest? ==> slots == old(slots) && !applied
      // NVS is erased at most once, and only after the payload matched its digest and an Applying
      // record with the raised attempt count was published.
      ensures erases == old(erases) || erases == old(erases) + 1
      ensures erases != old(erases) ==>
                && old(WillRead()).Current? && old(Applicable(WillRead().manifest))
                && Now().Current? && Now().manifest.attempts == old(WillRead()).manifest.attempts + 1
      // A record that asks for nothing, or for what has been done, is left alone.
      ensures old(WillRead()).Current? && old(WillRead()).manifest.state in {Failed, Applied, Validated} ==>
                slots == old(slots) && status == Ok && !applied && erases == old(erases)
      // Applied is published, even by a call cut short, only over an NVS that reads back as the image.
      ensures Now().Current? && Now() != old(Now()) && Now().manifest.state == Applied ==>
                sha256(nvs) == Now().manifest.imageSha256 && !torn
      ensures applied ==> status == Ok && old(Now()).Current? && Now().Current? && Now().manifest.state == Applied
                          && sha256(nvs) == Now().manifest.imageSha256 && !torn
                          && |payload| >= nvsSize && (Injective() ==> nvs == payload[..nvsSize])
      ensures applied ==> erases == old(erases) + if ended then 0 else 1
      // An undisturbed call completes exactly the applications that can be completed.
      ensures calm ==> old(calm) && old(WillRead()) == old(Now())
                       && (applied <==> old(Now()).Current? && old(Applicable(Now().manifest)))
      // What can no longer be attempted, or has lost its payload, is given up.
      ensures calm && old(Now()).Current? && old(Now()).manifest.state in {Ready, Applying}
              && old(Now()).manifest.imageSize == nvsSize && !old(Applicable(Now().manifest)) ==>
                Now() == old(Follows(Now(), Failed))
      ensures calm && applied ==> nvs == payload[..nvsSize]
      // A boot goes on past a torn NVS only when the restore was given up, or the record was not read.
      ensures !ended && torn && status == Ok && missed == old(missed) ==> Now().manifest.state == Failed
      ensures old(CutAtWrite()) ==>
                && status != Ok && erases == old(erases) + (if ended then 0 else 1)
                && (old(WillRead()).manifest.attempts + 1 < MAXIMUM_ATTEMPTS ==>
                      clock == old(clock) + 9
                      && slots == old(slots)[1 - old(WillRead()).slot :=
                                             Sealed(old(WillRead()).manifest.NextAttempt())])
      ensures old(Serene()) ==> Serene()
      ensures off == (status == PowerLost)
    {
      hide Linked, InBounds, Selected, Hides, CanUpdate, Serene;
      var current := ReadCurrentManifest();
      if current.NoManifest? { return Ok, false; }
      if current.manifest.state in {Failed, Applied, Validated} { return Ok, false; }
      assert current.manifest.state.Ready? || current.manifest.state.Applying?;
      status, applied := ApplyPending(current);
    }

    /** Whatever an erase leaves of a Validated record and its neighbour carries the same attempts. */
    lemma WhatIsLeft(before: seq<Slot>, read: Current)
      requires Valid() && |before| == 2 && OnlyErased(before) && Now().Current?
      requires Linked(before, stagingSize) && InBounds(before, stagingSize)
      requires read.Current? && read.slot < 2 && before[read.slot] == Sealed(read.manifest)
      requires ValidManifest(read.manifest, stagingSize) && read.manifest.state == Validated
      ensures Selected(before, stagingSize).Current?
      ensures Now().manifest.attempts == Selected(before, stagingSize).manifest.attempts == read.manifest.attempts
      ensures forall i | 0 <= i < 2 && ValidSlot(slots[i], stagingSize) :: slots[i] == before[i]
    {
    }

    /** Erases the staging whose record is Validated. Where the erase is cut short, the record it left
        still accounts for every erase of NVS. */
    method EraseConfirmed(read: Current) returns (status: Status)
      requires Inv() && !off && read.Current? && CanUpdate(read) && read.manifest.state == Validated
      modifies this`slots, this`payload, this`clock, this`off, this`calm, this`ended
      ensures Inv() && (old(ended) ==> ended) && (ended && !old(ended) ==> Now().NoManifest?)
      ensures status == Ok ==> slots == [Unreadable, Unreadable]
      ensures calm ==> old(calm) && status == Ok
      ensures old(Serene()) ==> Serene()
      ensures off == (status == PowerLost)
    {
      hide SequenceLimit, Linked, InBounds, RecordInBounds, Selected, Hides, Serene, Blank, WillRead, Seen, Reported;
      status := EraseStagedRestore();
      if !old(ended) && Now().Current? {
        WhatIsLeft(old(slots), read);
        ended := false;
      }
    }

    /** Applied becomes Validated, and Validated is erased: one step a boot, after a start that
        succeeded. */
    method ConfirmStagedRestore() returns (status: Status, restartRequired: bool)
      requires Inv() && !off
      modifies this`slots, this`payload, this`clock, this`off, this`calm, this`missed, this`hidden, this`ended
      ensures Inv() && (old(ended) ==> ended)
      ensures missed == old(missed) + if old(WillRead()) == old(Now()) then 0 else 1
      ensures hidden == old(hidden) + if old(Hides(Now(), WillRead())) then 1 else 0
      ensures restartRequired ==> && status == Ok && old(Now()).Current? && Now().Current?
                                  && old(WillRead()).Current? && old(WillRead()).manifest.state == Applied
                                  && Now() == Current(old(WillRead()).manifest.Next(Validated),
                                                      1 - old(WillRead()).slot)
                                  && old(Now()).manifest.sequence + 1 <= Now().manifest.sequence + missed - old(missed)
      ensures ended && !old(ended) ==>
                old(WillRead()).Current? && old(WillRead()).manifest.state == Validated && Now().NoManifest?
      ensures old(Now()).NoManifest? ==> Now().NoManifest?
      ensures calm ==> && old(calm) && status == Ok && old(WillRead()) == old(Now())
                       && (restartRequired <==> old(Now()).Current? && old(Now()).manifest.state == Applied)
      ensures calm && old(Now()).Current? && old(Now()).manifest.state == Validated ==>
                slots == [Unreadable, Unreadable]
      ensures old(WillRead()).NoManifest? || old(WillRead()).manifest.state !in {Applied, Validated} ==>
                slots == old(slots) && ended == old(ended)
      ensures old(Serene()) ==> Serene()
      ensures off == (status == PowerLost)
    {
      hide SequenceLimit, Linked, InBounds, RecordInBounds, Selected, Hides, Serene, Blank, WillRead, Seen, Reported;
      restartRequired := false;
      var current := ReadCurrentManifest();
      if current.NoManifest? { return Ok, false; }
      if current.manifest.state == Applied {
        status := Publish(current.manifest.Next(Validated), current);
        restartRequired := status == Ok;
        return;
      }
      if current.manifest.state == Validated {
        status := EraseConfirmed(current);
        return;
      }
      status := Ok;
    }

    /** Asks for another application of an image that did not start. */
    method RetryAppliedRestore() returns (status: Status)
      requires Inv() && !off
      modifies this`slots, this`clock, this`off, this`calm, this`missed, this`hidden
      ensures Inv()
      ensures missed == old(missed) + if old(WillRead()) == old(Now()) then 0 else 1
      ensures hidden == old(hidden) + if old(Hides(Now(), WillRead())) then 1 else 0
      ensures status == Ok ==> && old(Now()).Current? && Now().Current?
                               && old(WillRead()).Current? && old(WillRead()).manifest.state in {Applied, Validated}
                               && Now() == Current(old(WillRead()).manifest.Next(Ready), 1 - old(WillRead()).slot)
                               && old(Now()).manifest.sequence + 1 <= Now().manifest.sequence + missed - old(missed)
      ensures old(Now()).Current? <==> Now().Current?
      ensures Now().Current? ==> old(Now()).manifest.sequence <= Now().manifest.sequence + missed - old(missed)
      ensures calm ==> && old(calm) && old(WillRead()) == old(Now())
                       && status == if old(Now()).NoManifest? then NotFound
                                    else if old(Now()).manifest.state in {Applied, Validated} then Ok else InvalidState
      ensures old(WillRead()).NoManifest? || old(WillRead()).manifest.state !in {Applied, Validated} ==>
                slots == old(slots)
      ensures old(Serene()) ==> Serene()
      ensures off == (status == PowerLost)
    {
      hide SequenceLimit, Linked, InBounds, RecordInBounds, Selected, Hides, Serene;
      var current := ReadCurrentManifest();
      if current.NoManifest? { return NotFound; }
      if current.manifest.state != Applied && current.manifest.state != Validated { return InvalidState; }
      status := Publish(current.manifest.Next(Ready), current);
    }

    // ---- Boots ----

    /** The application owns NVS once it has initialised it. */
    method ApplicationUsesNvs()
      requires Inv()
      modifies this`nvs
      ensures Inv()
    {
      var written: Image :| |written| == nvsSize;
      nvs := written;
    }

    /** The image is in place, but NVS cannot be initialised from it or holds no configuration. */
    predicate Unusable(nvsInit: NvsInit, configurationLoads: bool) {
      nvsInit == NeedsErase || (nvsInit == Initialized && !configurationLoads)
    }

    /** What is current once `state` has been published over a record. */
    function Follows(current: Current, state: RestoreState): Current
      requires current.Current? && current.slot < 2
    {
      Current(current.manifest.Next(state), 1 - current.slot)
    }

    /** The rest of a boot, which the early application did not end. */
    method StartApplication(nvsInit: NvsInit, configurationLoads: bool, servicesStart: bool) returns (end: BootEnd)
      requires Inv() && !off
      modifies this`slots, this`payload, this`nvs, this`clock, this`off, this`calm, this`missed, this`hidden, this`ended
      ensures Inv() && (old(ended) ==> ended) && (old(Accounted()) ==> Accounted()) && missed >= old(missed)
      ensures end == Restarts ==> && old(Now()).Current? && Now().Current?
                                  && old(Now()).manifest.sequence + 1 <= Now().manifest.sequence + missed - old(missed)
      ensures missed == old(missed) && old(Now()).Current? && old(Now()).manifest.state == Failed ==>
                slots == old(slots) && ended == old(ended)
      ensures calm ==> old(calm)
      // An undisturbed boot whose application starts confirms the record one step further.
      ensures calm && nvsInit == Initialized && configurationLoads && servicesStart && old(Now()).Current? ==>
                && (old(Now()).manifest.state == Applied ==> end == Restarts && old(Follows(Now(), Validated)) == Now())
                && (old(Now()).manifest.state == Validated ==> end == Runs && slots == [Unreadable, Unreadable])
      // One that finds the application unable to use the image asks for another attempt.
      ensures calm && Unusable(nvsInit, configurationLoads) && old(Now()).Current?
              && old(Now()).manifest.state in {Applied, Validated} ==>
                end == Restarts && old(Follows(Now(), Ready)) == Now()
      // In every other case the undisturbed boot leaves the record alone.
      ensures calm && old(Now()).Current?
              && (old(Now()).manifest.state !in {Applied, Validated}
                  || (!Unusable(nvsInit, configurationLoads)
                      && !(nvsInit == Initialized && configurationLoads && servicesStart))) ==>
                slots == old(slots) && end in {Stops, Runs}
      ensures old(Serene()) ==> Serene()
      ensures off == (end == Dies)
    {
      hide SequenceLimit, Linked, InBounds, RecordInBounds, Selected, Hides, Serene;
      var status;
      if nvsInit == NeedsErase {
        status := RetryAppliedRestore();
        if status == PowerLost { return Dies; }
        if status == Ok { return Restarts; }
      }
      if nvsInit != Initialized { return Stops; }
      ApplicationUsesNvs();
      if !configurationLoads {
        status := RetryAppliedRestore();
        if status == PowerLost { return Dies; }
        if status == Ok { return Restarts; }
      }
      if configurationLoads && servicesStart {
        var restartRequired;
        status, restartRequired := ConfirmStagedRestore();
        if status == PowerLost { return Dies; }
        if restartRequired { return Restarts; }
      }
      return Runs;
    }

    /** One boot. What NVS initialisation, the stored configuration and the services make of the
        NVS content is up to them. */
    method Boot(nvsInit: NvsInit, configurationLoads: bool, servicesStart: bool) returns (end: BootEnd)
      requires Inv() && !off
      modifies this`slots, this`payload, this`nvs, this`clock, this`off, this`calm, this`erases, this`missed,
        this`hidden, this`torn, this`ended
      ensures Inv() && (old(ended) ==> ended) && (old(Accounted()) ==> Accounted()) && missed >= old(missed)
      ensures calm ==> old(calm)
      // A restart follows a record with a higher number, but for the reads that missed the current one.
      ensures end == Restarts ==> && old(Now()).Current? && Now().Current?
                                  && old(Now()).manifest.sequence + 1 <= Now().manifest.sequence + missed - old(missed)
      // Whatever the last boot left of NVS, an undisturbed boot completes the application if it
      // may still be attempted and the payload is intact.
      ensures calm && old(Now()).Current? && old(Applicable(Now().manifest)) ==>
                end == Restarts && Now().Current? && Now().manifest.state == Applied && nvs == payload[..nvsSize]
                && erases == old(erases) + (if ended then 0 else 1) && ended == old(ended)
                && (!ended && Injective() ==> nvs == staged)
      // Once applied, an undisturbed boot that starts confirms, first to Validated and then for good;
      // one whose application cannot use the image asks for another attempt.
      ensures calm && nvsInit == Initialized && configurationLoads && servicesStart && old(Now()).Current? ==>
                && (old(Now()).manifest.state == Applied ==> end == Restarts && old(Follows(Now(), Validated)) == Now())
                && (old(Now()).manifest.state == Validated ==> end == Runs && slots == [Unreadable, Unreadable])
      ensures old(Now()).Current? && old(Now()).manifest.state in {Failed, Applied, Validated} && calm ==>
                erases == old(erases)
      ensures calm && Unusable(nvsInit, configurationLoads) && old(Now()).Current?
              && old(Now()).manifest.state in {Applied, Validated} ==>
                end == Restarts && old(Follows(Now(), Ready)) == Now()
      // The application never starts on an NVS torn by an application of the image, be it in this
      // boot or an earlier one, unless the restore has been given up or the record could not be read.
      ensures end == Runs && !ended && torn && missed == old(missed) ==> Now().manifest.state == Failed
      ensures old(CutAtWrite()) ==>
                && end in {Stops, Dies} && erases == old(erases) + (if ended then 0 else 1)
                && payload == old(payload) && ended == old(ended)
                && missed == old(missed) + (if old(WillRead()) == old(Now()) then 0 else 1)
                && hidden == old(hidden) + (if old(Hides(Now(), WillRead())) then 1 else 0)
                && (old(WillRead()).manifest.attempts + 1 < MAXIMUM_ATTEMPTS ==>
                      clock == old(clock) + 9
                      && slots == old(slots)[1 - old(WillRead()).slot :=
                                             Sealed(old(WillRead()).manifest.NextAttempt())])
      ensures old(Serene()) ==> Serene()
      ensures off == (end == Dies)
    {
      hide SequenceLimit, Linked, InBounds, RecordInBounds, Selected, Hides, Serene, CutAtWrite;
      var status, applied := ApplyStagedRestoreEarly();
      if status == PowerLost { return Dies; }
      if status != Ok && status != NotFound { return Stops; }
      if applied { return Restarts; }
      end := StartApplication(nvsInit, configurationLoads, servicesStart);
    }

    /** The way a restore is meant to go: when every flash operation succeeds and every boot starts the
        application, the staged image is applied, confirmed by two boots, and gone from the staging
        partition; and NVS was the image when the application was first started on it. */
    method UndisturbedRestore(image: Image) returns (staging: Status, ends: seq<BootEnd>, ghost applied: Image)
      requires Inv() && !off && Serene() && |image| == nvsSize && 0 < nvsSize <= MAXIMUM_IMAGE_SIZE
      requires PAYLOAD_OFFSET + nvsSize <= stagingSize && Injective()
      modifies this
      ensures Inv()
      ensures staging == Ok && ends == [Restarts, Restarts, Runs] && applied == image
      ensures slots == [Unreadable, Unreadable] && ended && erases == 1
    {
      hide SequenceLimit, Linked, InBounds, RecordInBounds, Hides, Injective, RecordsFit;
      staging := StageRestoreImage(image);
      var first := Boot(Initialized, true, true);
      applied := nvs;
      var second := Boot(Initialized, true, true);
      var third := Boot(Initialized, true, true);
      ends := [first, second, third];
    }

    ghost function SequenceNow(): int
      requires Valid()
      reads this`slots, this`payload, this`nvs
    {
      if Now().Current? then Now().manifest.sequence else 0
    }

    lemma SequenceIsBounded()
      requires Inv()
      ensures 0 <= SequenceNow() <= 14
      ensures forall i | 0 <= i < 2 && ValidSlot(slots[i], stagingSize) :: slots[i].manifest.sequence <= 14
    {
      forall i | 0 <= i < 2 && ValidSlot(slots[i], stagingSize)
        ensures slots[i].manifest.sequence <= 14
      {
        FourteenAtMost(slots[i].manifest);
      }
    }

    /** Applying power: the device restarts itself until a boot ends in some other way, or power is
        removed after `limit` restarts. There are at most fourteen restarts and one more for every
        read that missed the current record. */
    method PowerOn(limit: nat) returns (restarts: nat, settled: bool)
      requires Inv()
      modifies this`slots, this`payload, this`nvs, this`clock, this`off, this`calm, this`erases, this`missed,
        this`hidden, this`torn, this`ended
      ensures Inv() && (old(ended) ==> ended) && (old(Accounted()) ==> Accounted()) && missed >= old(missed)
      ensures restarts <= 14 + missed - old(missed)
      ensures !settled ==> restarts == limit
    {
      hide SequenceLimit, Linked, InBounds, Selected, RecordsFit;
      restarts, settled := 0, false;
      SequenceIsBounded();
      while restarts < limit && !settled
        invariant Inv() && (old(ended) ==> ended) && (old(Accounted()) ==> Accounted()) && missed >= old(missed)
        invariant 0 <= SequenceNow() <= 14 && restarts <= limit && restarts <= 14 + missed - old(missed)
        invariant !settled ==> restarts <= SequenceNow() + missed - old(missed)
        decreases limit - restarts, !settled
      {
        off := false;
        var init: NvsInit, loads: bool, starts: bool := *, *, *;
        var end := Boot(init, loads, starts);
        SequenceIsBounded();
        settled := end != Restarts;
        if !settled { restarts := restarts + 1; }
      }
    }

    /** Any number of power cycles, with crashes and flash failures anywhere, from a staging that may
        itself have been cut short: NVS is erased at most three times, and once more for every read
        that hid an announced attempt; and no record carries a number above fourteen. */
    method AnyRun(image: Image, powerCycles: nat) returns (status: Status)
      requires Inv() && !off
      modifies this
      ensures Inv()
      ensures erases <= MAXIMUM_ATTEMPTS + hidden && hidden <= missed
      ensures !ended && status != InvalidSize ==> staged == image
      // All erases of NVS are counted, unless an earlier staging was left half erased.
      ensures status == Ok || old(Now()).NoManifest? ==> Accounted()
      ensures !ended ==> Now().Current? && erases <= Now().manifest.attempts + hidden
      ensures forall i | 0 <= i < 2 && ValidSlot(slots[i], stagingSize) :: slots[i].manifest.sequence <= 14
    {
      status := StageRestoreImage(image);
      for i := 0 to powerCycles
        invariant Inv() && (!ended && status != InvalidSize ==> staged == image)
        invariant status == Ok || old(Now()).NoManifest? ==> Accounted()
      {
        var limit: nat := *;
        var _, _ := PowerOn(limit);
      }
      SequenceIsBounded();
    }
  }

  datatype NvsInit = Initialized | NeedsErase | Broken

  /** How a boot ends: an automatic restart, a return from `app_main`, the running application, or
      a loss of power. */
  datatype BootEnd = Restarts | Stops | Runs | Dies
}
