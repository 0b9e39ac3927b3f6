/** Choosing the tier to read a block from, and the presence repairs a read leaves behind.
    A tier's status is fixed during one read. */
module TierRead {
  import opened Types
  import opened Schema

  datatype Probe = Found | Missing | Unavailable

  /** Columns of `set_block_presence` that a repair assigns. */
  datatype Repair = Repair(hot: Option<bool>, cold: Option<bool>, preferred: Option<Tier>)

  const NO_REPAIR := Repair(None, None, None)

  datatype Decision = Decision(tier: Tier, repair: Repair)

  function ProbeOf(t: Tier, hot: Probe, cold: Probe): Probe {
    if t == Hot then hot else cold
  }

  /** `_preferred_tier`, decided from metadata alone: the preferred copy if it is declared, else a declared one, hot
      first. */
  function PreferredTier(row: BlockRow): (t: Tier)
    ensures row.preferred.Some? && Present(row, row.preferred.value) ==> t == row.preferred.value
    ensures !(row.preferred.Some? && Present(row, row.preferred.value)) ==> (t == Hot <==> row.hot)
  {
    if row.preferred == Some(Cold) && row.cold then Cold
    else if row.preferred == Some(Hot) && row.hot then Hot
    else if row.hot then Hot
    else Cold
  }

  /** `_probe_all_tiers_for_repair`. */
  function RepairFromDisk(hot: Probe, cold: Probe): Result<Decision> {
    if cold == Unavailable && hot != Found then Err(EIO)
    else if hot == Found || cold == Found then
      var tier := if hot == Found then Hot else Cold;
      Ok(Decision(tier,
        Repair(Some(hot == Found), if cold == Unavailable then None else Some(cold == Found), Some(tier))))
    else Err(EIO)
  }

  /** `_decide_after_preferred_missing`. */
  function AfterMissing(row: BlockRow, tier: Tier, hot: Probe, cold: Probe): Result<Decision> {
    var alternate := Other(tier);
    if Present(row, alternate) && ProbeOf(alternate, hot, cold) == Found then
      Ok(Decision(alternate, if tier == Hot then Repair(Some(false), None, Some(Cold))
        else Repair(None, Some(false), Some(Hot))))
    else if Present(row, alternate) && ProbeOf(alternate, hot, cold) == Unavailable then Err(EIO)
    else RepairFromDisk(hot, cold)
  }

  /** `_decide_after_preferred_unavailable`: read the declared copy, repair nothing. */
  function AfterUnavailable(row: BlockRow, tier: Tier, hot: Probe, cold: Probe): Result<Decision> {
    var alternate := Other(tier);
    if Present(row, alternate) && ProbeOf(alternate, hot, cold) == Found then Ok(Decision(alternate, NO_REPAIR))
      else Err(EIO)
  }

  /** `_read_tiered_payload`.  A read succeeds exactly when the preferred copy is there, or is missing and the
      other copy is there, or is unavailable and the other copy is declared and there; and the tier it then
      reads has the file. */
  function ReadTiered(row: BlockRow, hot: Probe, cold: Probe): (r: Result<Decision>)
    ensures var tier := PreferredTier(row);
      var own, other := ProbeOf(tier, hot, cold), ProbeOf(Other(tier), hot, cold);
      r.Ok? <==>
        || own == Found
        || (own == Missing && other == Found)
        || (own == Unavailable && Present(row, Other(tier)) && other == Found)
    ensures r.Ok? ==> ProbeOf(r.value.tier, hot, cold) == Found
    ensures r.Ok? ==> (r.value.tier == PreferredTier(row) <==> ProbeOf(PreferredTier(row), hot, cold) == Found)
    ensures r.Err? ==> r.errno == EIO
  {
    var tier := PreferredTier(row);
    match ProbeOf(tier, hot, cold)
    case Found => Ok(Decision(tier, NO_REPAIR))
    case Missing => AfterMissing(row, tier, hot, cold)
    case Unavailable => AfterUnavailable(row, tier, hot, cold)
  }

  /** `set_block_presence` with the columns of the repair. */
  function ApplyRepair(row: BlockRow, repair: Repair): BlockRow {
    row.(hot := if repair.hot.Some? then repair.hot.value else row.hot,
         cold := if repair.cold.Some? then repair.cold.value else row.cold,
         preferred := if repair.preferred.Some? then repair.preferred else row.preferred)
  }

  /** A repair recorded later than it was decided meets whatever row is there by then; the CHECK constraints may refuse
      it, and then nothing changes. */
  function Recorded(row: BlockRow, repair: Repair): BlockRow {
    if RowCheck(ApplyRepair(row, repair)) then ApplyRepair(row, repair) else row
  }

  predicate PreferredDeclared(row: BlockRow) {
    row.preferred.Some? && Present(row, row.preferred.value)
  }

  /** A repair clears a bit only for a confirmed missing copy, sets one only for a copy the read saw, keeps
      the schema's CHECK, and any repair at all leaves the preference on a declared copy that was there. */
  ghost predicate RepairIsSound(row: BlockRow, after: BlockRow, hot: Probe, cold: Probe) {
    && RowCheck(after)
    && after == row.(hot := after.hot, cold := after.cold, preferred := after.preferred)
    && (forall t :: Present(row, t) && !Present(after, t) ==> ProbeOf(t, hot, cold) == Missing)
    && (forall t :: !Present(row, t) && Present(after, t) ==> ProbeOf(t, hot, cold) == Found)
    && (after != row ==> PreferredDeclared(after) && ProbeOf(after.preferred.value, hot, cold) == Found)
  }

  /** The row after the repair of one read; a failed read repairs nothing. */
  function AfterRead(row: BlockRow, hot: Probe, cold: Probe): (after: BlockRow)
    ensures row.storage == Tiered && RowCheck(row) ==> RepairIsSound(row, after, hot, cold)
  {
    match ReadTiered(row, hot, cold)
    case Ok(decision) => ApplyRepair(row, decision.repair)
    case Err(_) => row
  }

  /** What a read repairs: only when the preferred copy is confirmed missing and the other one is read, the row gives up
      the one, declares the other and prefers it. */
  lemma AfterReadExactly(row: BlockRow, hot: Probe, cold: Probe)
    ensures AfterRead(row, hot, cold) ==
      if PreferredTier(row) == Hot && hot == Missing && cold == Found
      then row.(hot := false, cold := true, preferred := Some(Cold))
      else if PreferredTier(row) == Cold && cold == Missing && hot == Found
      then row.(hot := true, cold := false, preferred := Some(Hot))
      else row
  {
  }

  function AfterReads(row: BlockRow, probes: seq<(Probe, Probe)>): BlockRow
    decreases |probes|
  {
    if probes == [] then row
    else var before := AfterReads(row, probes[..|probes| - 1]);
      AfterRead(before, probes[|probes| - 1].0, probes[|probes| - 1].1)
  }

  /** Over any sequence of reads, whatever the tiers answer each time: the CHECK holds throughout, a bit goes
      only after a read confirmed that copy missing, comes only after a read saw it, and the preference
      stays on a declared copy. */
  lemma {:induction false} ReadsKeepMetadataSound(row: BlockRow, probes: seq<(Probe, Probe)>)
    requires row.storage == Tiered && RowCheck(row)
    ensures var after := AfterReads(row, probes);
      && after.storage == Tiered && RowCheck(after)
      && (PreferredDeclared(row) ==> PreferredDeclared(after))
      && (forall t ::
           Present(row, t) && !Present(after, t) ==> exists i ::
             0 <= i < |probes| && ProbeOf(t, probes[i].0, probes[i].1) == Missing)
      && (forall t ::
           !Present(row, t) && Present(after, t) ==> exists i ::
             0 <= i < |probes| && ProbeOf(t, probes[i].0, probes[i].1) == Found)
    decreases |probes|
  {
    if probes != [] {
      var n := |probes| - 1;
      ReadsKeepMetadataSound(row, probes[..n]);
      var before, after := AfterReads(row, probes[..n]), AfterReads(row, probes);
      assert RepairIsSound(before, after, probes[n].0, probes[n].1);
      forall t | Present(row, t) && !Present(after, t)
        ensures exists i :: 0 <= i < |probes| && ProbeOf(t, probes[i].0, probes[i].1) == Missing
      {
        if !Present(before, t) {
          var i :| 0 <= i < n && ProbeOf(t, probes[..n][i].0, probes[..n][i].1) == Missing;
          assert ProbeOf(t, probes[i].0, probes[i].1) == Missing;
        } else {
          assert ProbeOf(t, probes[n].0, probes[n].1) == Missing;
        }
      }
      forall t | !Present(row, t) && Present(after, t)
        ensures exists i :: 0 <= i < |probes| && ProbeOf(t, probes[i].0, probes[i].1) == Found
      {
        if Present(before, t) {
          var i :| 0 <= i < n && ProbeOf(t, probes[..n][i].0, probes[..n][i].1) == Found;
          assert ProbeOf(t, probes[i].0, probes[i].1) == Found;
        } else {
          assert ProbeOf(t, probes[n].0, probes[n].1) == Found;
        }
      }
    }
  }
}
