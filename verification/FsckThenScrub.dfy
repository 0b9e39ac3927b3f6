/** A scrub with repair is an fsck pass followed by the scrub stage over the records loaded before the pass. */
module FsckThenScrub {
  import opened Types
  import opened Schema
  import opened TierRead
  import opened Tiering
  import opened Presence
  import opened Fsck
  import Scrub

  /** After an fsck pass a row passes its CHECK constraints, and it claims both copies where both files are there and
      can be reached. */
  lemma BitsCoverFiles(s: Store, down: Down, d: Digest)
    requires d in s.db.blocks && RowCheck(s.db.blocks[d]) && d in Repaired(s, down).db.blocks && !Fails(s, down, d)
    ensures var row := Repaired(s, down).db.blocks[d];
      && RowCheck(row) && row.storage == s.db.blocks[d].storage
      && (row.storage == Tiered && ProbeIn(s.disk, down, d, Hot) == Found && ProbeIn(s.disk, down, d, Cold) == Found ==>
           row.hot && row.cold)
  {
    SurvivorIs(s, down, d);
    VerdictCovers(s.db.blocks[d], Actual(s.db.chunks, d), ProbeIn(s.disk, down, d, Hot),
      ProbeIn(s.disk, down, d, Cold));
  }

  lemma VerdictCovers(row: BlockRow, actual: nat, hot: Probe, cold: Probe)
    requires RowCheck(row) && RepairedRow(row, actual, hot, cold).Some? && !Refused(row, actual, hot, cold)
    ensures var after := Cleared(RepairedRow(row, actual, hot, cold).value);
      && RowCheck(after) && after.storage == row.storage
      && (row.storage == Tiered && hot == Found && cold == Found ==> after.hot && after.cold)
  {
  }

  /** Both copies can be read in this pass. */
  predicate BothReadable(files: Scrub.Files, d: Digest) {
    && (d, Hot) in files && files[(d, Hot)] != Scrub.Unreachable
    && (d, Cold) in files && files[(d, Cold)] != Scrub.Unreachable
  }

  lemma ScrubKeepsChecked(rows: map<Digest, BlockRow>, records: map<Digest, BlockRow>, files: Scrub.Files,
                          includeCold: bool, d: Digest)
    requires d in rows && d in records && RowCheck(rows[d]) && rows[d].storage == records[d].storage
    requires rows[d].storage == Tiered && BothReadable(files, d) ==> rows[d].hot && rows[d].cold
    ensures RowCheck(Scrub.RowsScrubbed(rows, records, files, includeCold)[d])
  {
    forall t | (d, t) in files && (d, t) !in Scrub.FilesScrubbed(records, files, includeCold)
      ensures RowCheck(Scrub.RowsScrubbed(rows, records, files, includeCold)[d])
    {
      Scrub.DroppedExactly(records, files, includeCold, d, t);
      assert BothReadable(files, d);
      Scrub.DroppedIsReplaced(rows, records, files, includeCold, d, t);
    }
  }

  /** The scan sees the files as the pass before it left them, and what was unreachable still is. */
  ghost predicate Sees(files: Scrub.Files, disk: Disk, down: Down) {
    && files.Keys == disk.Keys
    && forall f :: f in files && f in down ==> files[f] == Scrub.Unreachable
  }

  /** The stage never violates a CHECK constraint of a block row: when it takes a copy away from a row, the pass before
      it has made the row claim the copy that stays. */
  lemma ScrubKeepsRowCheck(s: Store, down: Down, files: Scrub.Files, includeCold: bool, d: Digest)
    requires Sees(files, Repaired(s, down).disk, down)
    requires d in s.db.blocks && RowCheck(s.db.blocks[d]) && d in Repaired(s, down).db.blocks && !Fails(s, down, d)
    ensures RowCheck(Scrub.RowsScrubbed(Repaired(s, down).db.blocks, s.db.blocks, files, includeCold)[d])
  {
    BitsCoverFiles(s, down, d);
    forall t | (d, t) in files && files[(d, t)] != Scrub.Unreachable ensures ProbeIn(s.disk, down, d, t) == Found {
      assert (d, t) in Repaired(s, down).disk;
    }
    ScrubKeepsChecked(Repaired(s, down).db.blocks, s.db.blocks, files, includeCold, d);
  }
}
