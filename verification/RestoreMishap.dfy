/** Three erases are the bound when no read hides an announced attempt. Here is a run in which one does. */
module RestoreMishap {
  import opened Ticks
  import opened DecoderModel
  import opened RestoreModel
  import opened RestoreStaging

  /** The write of NVS is refused in each of four boots, and the second boot cannot read the manifest
      sector that holds the first attempt. */
  function Fates(operation: nat): Fate {
    if operation in {14, 16, 23, 32, 41} then Mishap(Reported, false, false, []) else Fine
  }

  /** A boot that reads `read`, announces an attempt over it, erases NVS, and is refused the write. */
  method RefusedBoot(r: RestoreStaging, ghost read: Current)
    requires r.Inv() && !r.ended && r.fate == Fates && r.clock in {6, 15, 24, 33}
    requires read == r.WillRead() && read.Current? && read.slot < 2 && r.Applicable(read.manifest)
    modifies r
    ensures r.Inv() && !r.ended && r.payload == old(r.payload) && r.staged == old(r.staged)
    ensures r.erases == old(r.erases) + 1
    ensures r.missed == old(r.missed) + if read == old(r.Now()) then 0 else 1
    ensures r.hidden == old(r.hidden) + if Hides(old(r.Now()), read) then 1 else 0
    ensures read.manifest.attempts + 1 < MAXIMUM_ATTEMPTS ==>
              r.clock == old(r.clock) + 9
              && r.slots == old(r.slots)[1 - read.slot := Sealed(read.manifest.NextAttempt())]
  {
    hide RestoreStaging.RecordsFit, Linked, InBounds, Selected, Hides;
    r.off := false;
    assert r.CutAtWrite();
    var _ := r.Boot(Initialized, true, true);
  }

  /** The staging and the first boot. */
  method OneErase(image: Image, stagingSize: nat, sha256: Image -> Digest) returns (r: RestoreStaging)
    requires 0 < |image| <= MAXIMUM_IMAGE_SIZE && PAYLOAD_OFFSET + |image| <= stagingSize < WRAP
    ensures fresh(r) && r.stagingSize == stagingSize && r.nvsSize == |image| && r.sha256 == sha256 && r.fate == Fates
    ensures r.Inv() && !r.ended && r.staged == image && r.clock == 15
    ensures var ready := r.FirstManifest(image);
            r.slots == [Sealed(ready), Sealed(ready.NextAttempt())] && r.PayloadMatches(ready)
    ensures r.erases == 1 && r.hidden == 0 && r.missed == 0
  {
    hide RestoreStaging.RecordsFit, Linked, InBounds, Manifest.Next;
    r := new RestoreStaging(stagingSize, |image|, sha256, Fates);
    var _ := r.StageRestoreImage(image);
    RefusedBoot(r, Current(r.FirstManifest(image), 0));
  }

  /** The second boot announces the first attempt again over the Ready record. */
  method TwoErases(image: Image, stagingSize: nat, sha256: Image -> Digest) returns (r: RestoreStaging)
    requires 0 < |image| <= MAXIMUM_IMAGE_SIZE && PAYLOAD_OFFSET + |image| <= stagingSize < WRAP
    ensures fresh(r) && r.stagingSize == stagingSize && r.nvsSize == |image| && r.sha256 == sha256 && r.fate == Fates
    ensures r.Inv() && !r.ended && r.staged == image && r.clock == 24
    ensures var ready := r.FirstManifest(image);
            r.slots == [Sealed(ready), Sealed(ready.NextAttempt())] && r.PayloadMatches(ready)
    ensures r.erases == 2 && r.hidden == 1 && r.missed == 1
  {
    hide RestoreStaging.RecordsFit, Linked, InBounds, Manifest.Next;
    r := OneErase(image, stagingSize, sha256);
    RefusedBoot(r, Current(r.FirstManifest(image), 0));
  }

  /** Whatever the image and the digest, four erases for one staging. */
  method FourErases(image: Image, stagingSize: nat, sha256: Image -> Digest) returns (r: RestoreStaging)
    requires 0 < |image| <= MAXIMUM_IMAGE_SIZE && PAYLOAD_OFFSET + |image| <= stagingSize < WRAP
    ensures r.Inv() && !r.ended && r.staged == image
    ensures r.erases == MAXIMUM_ATTEMPTS + 1 && r.hidden == 1 && r.missed == 1
  {
    hide RestoreStaging.RecordsFit, Linked, InBounds;
    r := TwoErases(image, stagingSize, sha256);
    ghost var announced := r.FirstManifest(image).NextAttempt();
    RefusedBoot(r, Current(announced, 1));
    RefusedBoot(r, Current(announced.NextAttempt(), 0));
  }
}
