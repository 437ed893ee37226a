/**
 * The offline labeller (NAP_Code.py): its own copy of the validator, a
 * rule-based benign/malicious scorer, and the row loop that labels a file.
 */
module NapCode {
  import opened Numeric
  import opened FlowFields
  import AppValidation

  // ---------------------------------------------------------------------
  // is_valid_packet (NAP_Code.py version)
  // ---------------------------------------------------------------------

  /** One step of this file's size loop: no `not in row.index` test, only the NaN skip. */
  predicate SizeFieldOk(row: Row, col: string)
  {
    IsNa(Get(row, col)) ||
    (!Lt(Get(row, col), Fin(0.0)) && !(IsCapped(col) && Gt(Get(row, col), Fin(SizeCap))))
  }

  /** One step of this file's IAT loop: no `not in row.index` test, only the NaN skip. */
  predicate IatFieldOk(row: Row, col: string)
  {
    IsNa(Get(row, col)) || !Lt(Get(row, col), Fin(0.0))
  }

  /**
   * `is_valid_packet(row)` of NAP_Code.py. The fixed-column guards and the
   * flag loop are word for word those of app.py and are shared with it.
   */
  predicate IsValidPacket(row: Row)
  {
    && AppValidation.DurationOk(row)
    && (forall i :: 0 <= i < |SizeFields| ==> SizeFieldOk(row, SizeFields[i]))
    && AppValidation.ConsistencyOk(row)
    && (forall i :: 0 <= i < |IatFields| ==> IatFieldOk(row, IatFields[i]))
    && (forall i :: 0 <= i < |FlagFields| ==> AppValidation.FlagFieldOk(row, FlagFields[i], AppValidation.TotalPkts(row)))
  }

  /** The two validators accept exactly the same rows: the extra absence tests of app.py are no-ops since `g` yields NaN. */
  lemma ValidatorsAgree(row: Row)
    ensures IsValidPacket(row) <==> AppValidation.IsValidPacket(row)
  {
    forall col: string
      ensures SizeFieldOk(row, col) <==> AppValidation.SizeFieldOk(row, col)
      ensures IatFieldOk(row, col) <==> AppValidation.IatFieldOk(row, col)
    {
    }
  }

  /** An infinite flow rate rejects the row: nothing in this file turns infinities into NaN first. */
  lemma InfiniteRateInvalid(row: Row)
    requires IsInf(Get(row, FlowPktsPerSec)) || IsInf(Get(row, FlowBytsPerSec))
    ensures !IsValidPacket(row)
  {
    assert !AppValidation.RatesOk(row);
  }

  // ---------------------------------------------------------------------
  // classify_benign_malicious
  // ---------------------------------------------------------------------

  /** The cells the rules read, after `x or 0` (which leaves every number as it is). */
  function TotFwd(row: Row): Num { OrZero(Get(row, TotFwdPkts)) }
  function TotBwd(row: Row): Num { OrZero(Get(row, TotBwdPkts)) }
  function LenFwd(row: Row): Num { OrZero(Get(row, TotLenFwdPkts)) }
  function LenBwd(row: Row): Num { OrZero(Get(row, TotLenBwdPkts)) }
  function Duration(row: Row): Num { OrZero(Get(row, FlowDuration)) }

  /** Rule 1: a one-sided flow (at least 3 forward packets, no backward packet). */
  predicate ForwardOnly(row: Row) { Ge(TotFwd(row), Fin(3.0)) && Eq(TotBwd(row), Fin(0.0)) }

  /** Rule 2: an extremely high packet rate. */
  predicate HighPacketRate(row: Row)
  {
    !IsNa(Get(row, FlowPktsPerSec)) && Gt(Get(row, FlowPktsPerSec), Fin(10000.0))
  }

  /** Rule 3: at least 3 packets but no bytes in either direction. */
  predicate HeaderOnly(row: Row)
  {
    Ge(Add(TotFwd(row), TotBwd(row)), Fin(3.0)) && Eq(LenFwd(row), Fin(0.0)) && Eq(LenBwd(row), Fin(0.0))
  }

  /** Rule 4: the response is more than 50 times the request, over a positive duration. */
  predicate ExfilRatio(row: Row)
  {
    Gt(LenFwd(row), Fin(0.0)) && Gt(Div(LenBwd(row), LenFwd(row)), Fin(50.0)) && Gt(Duration(row), Fin(0.0))
  }

  /** The condition of rule 5 on the port alone: a port in the ephemeral range. */
  predicate HighPort(row: Row)
  {
    !IsNa(Get(row, DstPort)) && Ge(Get(row, DstPort), Fin(49152.0))
  }

  /** The weight a rule adds when it fires. */
  function Weight(fires: bool, w: nat): nat { if fires then w else 0 }

  /** The score of rules 1 to 4: each firing rule adds its weight. */
  function RuleScore(row: Row): nat
  {
    Weight(ForwardOnly(row), 2) + Weight(HighPacketRate(row), 2) + Weight(HeaderOnly(row), 2) + Weight(ExfilRatio(row), 1)
  }

  /** The final score: rule 5 adds 1 when the port is high and some other rule has already fired. */
  function SuspicionScore(row: Row): (s: nat)
    ensures s >= RuleScore(row)
    ensures s <= RuleScore(row) + 1
  {
    RuleScore(row) + Weight(HighPort(row) && RuleScore(row) > 0, 1)
  }

  /** The label the rules assign to a valid row. */
  function Verdict(row: Row): (l: Label)
    ensures l != NAP
    ensures l == Malicious <==> SuspicionScore(row) >= 2
  {
    if SuspicionScore(row) >= 2 then Malicious else Benign
  }

  /** `classify_benign_malicious(row)`: the score is accumulated rule by rule, then compared with the threshold. */
  method ClassifyBenignMalicious(row: Row) returns (result: Label)
    ensures result == Benign || result == Malicious
    ensures result == Malicious <==> SuspicionScore(row) >= 2
  {
    var tfp := OrZero(Get(row, TotFwdPkts));
    var tbp := OrZero(Get(row, TotBwdPkts));
    var tlf := OrZero(Get(row, TotLenFwdPkts));
    var tlb := OrZero(Get(row, TotLenBwdPkts));
    var fd := OrZero(Get(row, FlowDuration));
    var fpktsS := Get(row, FlowPktsPerSec);
    var dstPort := Get(row, DstPort);

    var suspiciousScore: nat := 0;
    if Ge(tfp, Fin(3.0)) && Eq(tbp, Fin(0.0)) {
      suspiciousScore := suspiciousScore + 2;
    }
    if !IsNa(fpktsS) && Gt(fpktsS, Fin(10000.0)) {
      suspiciousScore := suspiciousScore + 2;
    }
    if Ge(Add(tfp, tbp), Fin(3.0)) && Eq(tlf, Fin(0.0)) && Eq(tlb, Fin(0.0)) {
      suspiciousScore := suspiciousScore + 2;
    }
    if Gt(tlf, Fin(0.0)) && Gt(Div(tlb, tlf), Fin(50.0)) && Gt(fd, Fin(0.0)) {
      suspiciousScore := suspiciousScore + 1;
    }
    assert suspiciousScore == RuleScore(row);
    if !IsNa(dstPort) && Ge(dstPort, Fin(49152.0)) && suspiciousScore > 0 {
      suspiciousScore := suspiciousScore + 1;
    }

    if suspiciousScore >= 2 {
      result := Malicious;
    } else {
      result := Benign;
    }
  }

  /** Each of rules 1 to 3 alone makes the row malicious: no rule lowers the score. */
  lemma StrongRuleMalicious(row: Row)
    requires ForwardOnly(row) || HighPacketRate(row) || HeaderOnly(row)
    ensures Verdict(row) == Malicious
  {
  }

  /** The exfiltration rule alone scores 1 (benign), unless the port is high, which lifts it to 2 (malicious). */
  lemma ExfilAlone(row: Row)
    requires ExfilRatio(row)
    requires !ForwardOnly(row) && !HighPacketRate(row) && !HeaderOnly(row)
    ensures Verdict(row) == (if HighPort(row) then Malicious else Benign)
  {
  }

  /** A high port never fires on its own. */
  lemma HighPortAloneBenign(row: Row)
    requires !ForwardOnly(row) && !HighPacketRate(row) && !HeaderOnly(row) && !ExfilRatio(row)
    ensures SuspicionScore(row) == 0 && Verdict(row) == Benign
  {
  }

  /**
   * `x or 0` does not default a missing count to 0: with either packet-count
   * column absent, rules 1 and 3 cannot fire; with either length column absent,
   * rules 3 and 4 cannot.
   */
  lemma AbsentCountsStopRules(row: Row)
    ensures TotFwdPkts !in row ==> !ForwardOnly(row) && !HeaderOnly(row)
    ensures TotBwdPkts !in row ==> !ForwardOnly(row) && !HeaderOnly(row)
    ensures TotLenFwdPkts !in row ==> !HeaderOnly(row) && !ExfilRatio(row)
    ensures TotLenBwdPkts !in row ==> !HeaderOnly(row) && !ExfilRatio(row)
  {
  }

  /** Where not defaulting matters: five forward packets and no backward column is benign, while an explicit backward count of 0 is malicious. */
  lemma AbsentBackwardCountIsNotZero()
    ensures Verdict(map[TotFwdPkts := Fin(5.0)]) == Benign
    ensures Verdict(map[TotFwdPkts := Fin(5.0), TotBwdPkts := Fin(0.0)]) == Malicious
  {
  }

  // ---------------------------------------------------------------------
  // label_csv_with_predictions: the row loop
  // ---------------------------------------------------------------------

  /** The label one row receives: NAP when invalid, otherwise the rules' verdict. */
  function RowLabel(row: Row): (l: Label)
    ensures l == NAP <==> !IsValidPacket(row)
    ensures IsValidPacket(row) ==> (l == Malicious <==> SuspicionScore(row) >= 2)
  {
    if !IsValidPacket(row) then NAP else Verdict(row)
  }

  /** The `preds` column: one label per row, in input order. */
  method LabelRows(rows: seq<Row>) returns (preds: seq<Label>)
    ensures |preds| == |rows|
    ensures forall i :: 0 <= i < |rows| ==> preds[i] == RowLabel(rows[i])
  {
    preds := [];
    var k := 0;
    while k < |rows|
      invariant 0 <= k <= |rows|
      invariant |preds| == k
      invariant forall i :: 0 <= i < k ==> preds[i] == RowLabel(rows[i])
    {
      var row := rows[k];
      if !IsValidPacket(row) {
        preds := preds + [NAP];
      } else {
        var verdict := ClassifyBenignMalicious(row);
        preds := preds + [verdict];
      }
      k := k + 1;
    }
  }
}
