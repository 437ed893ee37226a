/**
 * The server's "Not A Packet" validator (`is_valid_packet` in app.py): a
 * chain of guards, each of which rejects the row on a violation. With no
 * side effects and no exceptions on numeric cells, the chain is the
 * conjunction of its guards; each `for` loop over a column list becomes a
 * quantifier over that list.
 */
module AppValidation {
  import opened Numeric
  import opened FlowFields
  import opened Text

  /** Guard 1: `Flow Duration` is present, not NaN and not negative. */
  predicate DurationOk(row: Row)
  {
    var fd := Get(row, FlowDuration);
    !(IsNa(fd) || Lt(fd, Fin(0.0)))
  }

  /** One step of the size loop: an absent or NaN column is skipped; otherwise non-negative, and capped when it is a packet size. */
  predicate SizeFieldOk(row: Row, col: string)
  {
    col !in row || IsNa(Get(row, col)) ||
    (!Lt(Get(row, col), Fin(0.0)) && !(IsCapped(col) && Gt(Get(row, col), Fin(SizeCap))))
  }

  /** A mean never exceeds its maximum by more than the slack (skipped when either is NaN). */
  predicate MeanWithinMax(mean: Num, max: Num)
  {
    IsNa(mean) || IsNa(max) || !Gt(mean, Add(max, Fin(MeanSlack)))
  }

  /** One step of the `[tfp, tbp]` loop: a packet count is not negative. */
  predicate CountOk(v: Num)
  {
    !(!IsNa(v) && Lt(v, Fin(0.0)))
  }

  /** A direction with zero packets carries no bytes (skipped when either is NaN). */
  predicate ZeroPacketsNoLength(pkts: Num, len: Num)
  {
    IsNa(pkts) || IsNa(len) || !(Eq(pkts, Fin(0.0)) && Gt(len, Fin(0.0)))
  }

  /** Guard 4: neither flow rate is negative or infinite. */
  predicate RatesOk(row: Row)
  {
    var fbytes := Get(row, FlowBytsPerSec);
    var fpkts := Get(row, FlowPktsPerSec);
    !(!IsNa(fbytes) && Lt(fbytes, Fin(0.0))) &&
    !(!IsNa(fpkts) && Lt(fpkts, Fin(0.0))) &&
    !(IsInf(fpkts) || IsInf(fbytes))
  }

  /** One step of the IAT loop: an absent or NaN column is skipped; otherwise non-negative. */
  predicate IatFieldOk(row: Row, col: string)
  {
    col !in row || IsNa(Get(row, col)) || !Lt(Get(row, col), Fin(0.0))
  }

  /** The minimum inter-arrival time does not exceed the maximum (skipped when either is NaN). */
  predicate IatMinMaxOk(row: Row)
  {
    var fim := Get(row, FlowIatMin);
    var fix := Get(row, FlowIatMax);
    IsNa(fim) || IsNa(fix) || !Gt(fim, fix)
  }

  /** `total_pkts`: 0, plus each packet count that is not NaN. */
  function TotalPkts(row: Row): (t: Num)
    ensures IsNa(Get(row, TotFwdPkts)) && IsNa(Get(row, TotBwdPkts)) ==> t == Fin(0.0)
    ensures Get(row, TotFwdPkts).Fin? && Get(row, TotBwdPkts).Fin? ==>
              t == Fin(Get(row, TotFwdPkts).r + Get(row, TotBwdPkts).r)
    ensures Get(row, TotFwdPkts).Fin? && IsNa(Get(row, TotBwdPkts)) ==> t == Get(row, TotFwdPkts)
    ensures IsNa(Get(row, TotFwdPkts)) && Get(row, TotBwdPkts).Fin? ==> t == Get(row, TotBwdPkts)
  {
    var tfp := Get(row, TotFwdPkts);
    var tbp := Get(row, TotBwdPkts);
    var afterFwd := if !IsNa(tfp) then Add(Fin(0.0), tfp) else Fin(0.0);
    if !IsNa(tbp) then Add(afterFwd, tbp) else afterFwd
  }

  /** One step of the flag loop: an absent or NaN column is skipped; otherwise non-negative and at most `total`. */
  predicate FlagFieldOk(row: Row, col: string, total: Num)
  {
    col !in row || IsNa(Get(row, col)) ||
    (!Lt(Get(row, col), Fin(0.0)) && !(!IsNa(total) && Gt(Get(row, col), total)))
  }

  /** The guards of sections 2 to 5 that read fixed columns. */
  predicate ConsistencyOk(row: Row)
  {
    && MeanWithinMax(Get(row, FwdPktLenMean), Get(row, FwdPktLenMax))
    && MeanWithinMax(Get(row, BwdPktLenMean), Get(row, BwdPktLenMax))
    && CountOk(Get(row, TotFwdPkts)) && CountOk(Get(row, TotBwdPkts))
    && ZeroPacketsNoLength(Get(row, TotFwdPkts), Get(row, TotLenFwdPkts))
    && ZeroPacketsNoLength(Get(row, TotBwdPkts), Get(row, TotLenBwdPkts))
    && RatesOk(row)
    && IatMinMaxOk(row)
  }

  /** `is_valid_packet(row)` of app.py. */
  predicate IsValidPacket(row: Row)
  {
    && DurationOk(row)
    && (forall i :: 0 <= i < |SizeFields| ==> SizeFieldOk(row, SizeFields[i]))
    && ConsistencyOk(row)
    && (forall i :: 0 <= i < |IatFields| ==> IatFieldOk(row, IatFields[i]))
    && (forall i :: 0 <= i < |FlagFields| ==> FlagFieldOk(row, FlagFields[i], TotalPkts(row)))
  }

  // ---------------------------------------------------------------------
  // Properties of the validator
  // ---------------------------------------------------------------------

  /** A row whose duration is absent, NaN or negative is never valid. */
  lemma DurationRequired(row: Row)
    ensures IsValidPacket(row) ==> FlowDuration in row && !IsNa(row[FlowDuration]) && !Lt(row[FlowDuration], Fin(0.0))
  {
  }

  /** A row holding nothing but a non-negative duration is valid: every other guard skips absent columns. */
  lemma OnlyDurationIsValid(d: Num)
    requires !IsNa(d) && !Lt(d, Fin(0.0))
    ensures IsValidPacket(map[FlowDuration := d])
  {
    var row := map[FlowDuration := d];
    assert forall i :: 0 <= i < |SizeFields| ==> SizeFields[i] !in row;
    assert forall i :: 0 <= i < |IatFields| ==> IatFields[i] !in row;
    assert forall i :: 0 <= i < |FlagFields| ==> FlagFields[i] !in row;
  }

  /** The five packet-size columns are capped. */
  lemma CappedPacketSizes()
    ensures IsCapped(FwdPktLenMax) && IsCapped(FwdPktLenMean)
    ensures IsCapped(BwdPktLenMax) && IsCapped(BwdPktLenMean) && IsCapped(PktSizeAvg)
  {
    ContainsAt(FwdPktLenMax, "Pkt Len", 4);
    ContainsAt(FwdPktLenMean, "Pkt Len", 4);
    ContainsAt(BwdPktLenMax, "Pkt Len", 4);
    ContainsAt(BwdPktLenMean, "Pkt Len", 4);
    ContainsAt(PktSizeAvg, "Pkt Size", 0);
  }

  /** A column name with no `P` where either marker could start is not capped. */
  lemma NotCappedWithoutP(col: string)
    requires forall i :: 0 <= i <= |col| - 7 ==> col[i] != 'P'
    ensures !IsCapped(col)
  {
    NotContainsWithoutFirstChar(col, "Pkt Len");
    NotContainsWithoutFirstChar(col, "Pkt Size");
  }

  /** The two total-length columns have no upper cap. */
  lemma UncappedTotalLengths()
    ensures !IsCapped(TotLenFwdPkts) && !IsCapped(TotLenBwdPkts)
  {
    var fwd, bwd := TotLenFwdPkts, TotLenBwdPkts;
    assert fwd == "TotLen Fwd Pkts" && bwd == "TotLen Bwd Pkts";
    assert forall i :: 0 <= i <= |fwd| - 7 ==> fwd[i] != 'P';
    assert forall i :: 0 <= i <= |bwd| - 7 ==> bwd[i] != 'P';
    NotCappedWithoutP(fwd);
    NotCappedWithoutP(bwd);
  }

  /** Any present size column below zero makes the row invalid. */
  lemma NegativeSizeInvalid(row: Row, i: nat)
    requires i < |SizeFields| && SizeFields[i] in row && Lt(row[SizeFields[i]], Fin(0.0))
    ensures !IsValidPacket(row)
  {
    assert !SizeFieldOk(row, SizeFields[i]);
  }

  /** A packet-size column above the cap makes the row invalid. */
  lemma OversizedPacketInvalid(row: Row, i: nat)
    requires i < |SizeFields| && IsCapped(SizeFields[i])
    requires SizeFields[i] in row && Gt(row[SizeFields[i]], Fin(SizeCap))
    ensures !IsValidPacket(row)
  {
    assert !SizeFieldOk(row, SizeFields[i]);
  }

  /** Any present inter-arrival-time column below zero makes the row invalid. */
  lemma NegativeIatInvalid(row: Row, i: nat)
    requires i < |IatFields| && IatFields[i] in row && Lt(row[IatFields[i]], Fin(0.0))
    ensures !IsValidPacket(row)
  {
    assert !IatFieldOk(row, IatFields[i]);
  }

  /** A mean above its maximum by more than the slack, or a minimum IAT above the maximum, makes the row invalid. */
  lemma OrderViolationsInvalid(row: Row)
    requires || Gt(Get(row, FwdPktLenMean), Add(Get(row, FwdPktLenMax), Fin(MeanSlack)))
             || Gt(Get(row, BwdPktLenMean), Add(Get(row, BwdPktLenMax), Fin(MeanSlack)))
             || Gt(Get(row, FlowIatMin), Get(row, FlowIatMax))
    ensures !IsValidPacket(row)
  {
  }

  /** Negative counts, bytes in an empty direction, and negative or infinite rates make the row invalid. */
  lemma CountAndRateViolationsInvalid(row: Row)
    requires || Lt(Get(row, TotFwdPkts), Fin(0.0)) || Lt(Get(row, TotBwdPkts), Fin(0.0))
             || (Eq(Get(row, TotFwdPkts), Fin(0.0)) && Gt(Get(row, TotLenFwdPkts), Fin(0.0)))
             || (Eq(Get(row, TotBwdPkts), Fin(0.0)) && Gt(Get(row, TotLenBwdPkts), Fin(0.0)))
             || Lt(Get(row, FlowBytsPerSec), Fin(0.0)) || Lt(Get(row, FlowPktsPerSec), Fin(0.0))
             || IsInf(Get(row, FlowBytsPerSec)) || IsInf(Get(row, FlowPktsPerSec))
    ensures !IsValidPacket(row)
  {
  }

  /** A flag count above the total packet count (absent counts add nothing) makes the row invalid. */
  lemma FlagAboveTotalInvalid(row: Row, i: nat)
    requires i < |FlagFields| && FlagFields[i] in row
    requires !IsNa(TotalPkts(row)) && Gt(row[FlagFields[i]], TotalPkts(row))
    ensures !IsValidPacket(row)
  {
    assert !FlagFieldOk(row, FlagFields[i], TotalPkts(row));
  }

  /** Any present flag column below zero makes the row invalid, whatever the total. */
  lemma NegativeFlagInvalid(row: Row, i: nat)
    requires i < |FlagFields| && FlagFields[i] in row && Lt(row[FlagFields[i]], Fin(0.0))
    ensures !IsValidPacket(row)
  {
    assert !FlagFieldOk(row, FlagFields[i], TotalPkts(row));
  }

  /** With no packet counts at all, any positive flag count rejects the row. */
  lemma FlagWithoutCountsInvalid(row: Row, i: nat)
    requires TotFwdPkts !in row && TotBwdPkts !in row
    requires i < |FlagFields| && FlagFields[i] in row && Gt(row[FlagFields[i]], Fin(0.0))
    ensures !IsValidPacket(row)
  {
    FlagAboveTotalInvalid(row, i);
  }
}
