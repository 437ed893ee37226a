/**
 * A flow record (one CSV row) as both Python validators read it: a map from
 * column name to cell value, where `g(col)` yields NaN for a missing column.
 */
module FlowFields {
  import opened Numeric
  import opened Text

  type Row = map<string, Num>

  /** The label a row ends up with in the output CSV. */
  datatype Label = NAP | Benign | Malicious

  /** `g(col)`: the cell, or NaN when the row has no such column. */
  function Get(row: Row, col: string): (v: Num)
    ensures col !in row ==> IsNa(v)
    ensures col in row ==> v == row[col]
  {
    if col in row then row[col] else NaN
  }

  const FlowDuration := "Flow Duration"
  const FwdPktLenMax := "Fwd Pkt Len Max"
  const FwdPktLenMean := "Fwd Pkt Len Mean"
  const BwdPktLenMax := "Bwd Pkt Len Max"
  const BwdPktLenMean := "Bwd Pkt Len Mean"
  const TotLenFwdPkts := "TotLen Fwd Pkts"
  const TotLenBwdPkts := "TotLen Bwd Pkts"
  const PktSizeAvg := "Pkt Size Avg"
  const TotFwdPkts := "Tot Fwd Pkts"
  const TotBwdPkts := "Tot Bwd Pkts"
  const FlowBytsPerSec := "Flow Byts/s"
  const FlowPktsPerSec := "Flow Pkts/s"
  const FlowIatMax := "Flow IAT Max"
  const FlowIatMin := "Flow IAT Min"
  const DstPort := "Dst Port"

  /** The packet-size columns, each non-negative when present. */
  const SizeFields: seq<string> :=
    [FwdPktLenMax, FwdPktLenMean, BwdPktLenMax, BwdPktLenMean, TotLenFwdPkts, TotLenBwdPkts, PktSizeAvg]

  /** The inter-arrival-time columns, each non-negative when present. */
  const IatFields: seq<string> :=
    ["Flow IAT Mean", "Flow IAT Std", FlowIatMax, FlowIatMin, "Fwd IAT Mean", "Fwd IAT Std", "Bwd IAT Mean"]

  /** The TCP flag-count columns, each at most the packet total when present. */
  const FlagFields: seq<string> :=
    ["FIN Flag Cnt", "SYN Flag Cnt", "RST Flag Cnt", "PSH Flag Cnt", "ACK Flag Cnt", "URG Flag Cnt", "ECE Flag Cnt"]

  /** A size column that holds an individual packet size, hence is capped (`"Pkt Len" in col or "Pkt Size" in col`). */
  predicate IsCapped(col: string)
  {
    Contains(col, "Pkt Len") || Contains(col, "Pkt Size")
  }

  /** Upper bound on an individual packet size. */
  const SizeCap: real := 2000.0

  /** Slack allowed when a mean is compared with its maximum (`1e-6`). */
  const MeanSlack: real := 0.000001
}
