/**
 * The labelling steps of the server's `/api/predict` handler (app.py): clean
 * infinities, mark invalid rows NAP, let the model label the valid complete
 * rows, and fill every row still unlabelled with NAP. The data frame is an
 * array of rows and the `Predicted_Label` column an array updated in place.
 * The trained model is an arbitrary function from a row to a class code.
 */
module AppPredict {
  import opened Numeric
  import opened FlowFields
  import opened Wrappers
  import AppValidation

  /** `df.replace([np.inf, -np.inf], np.nan)` on one row. */
  function ReplaceInf(row: Row): (r: Row)
    ensures r.Keys == row.Keys
    ensures forall k :: k in r ==> !IsInf(r[k])
    ensures forall k :: k in r ==> r[k] == row[k] || (IsInf(row[k]) && IsNa(r[k]))
  {
    map k | k in row :: if IsInf(row[k]) then NaN else row[k]
  }

  /** A row that survives `dropna()`: every cell it has is a number. */
  predicate Complete(row: Row)
  {
    forall k :: k in row ==> !IsNa(row[k])
  }

  /** `PREDICTION_MAP` applied by `Series.map`: a code outside the map becomes NaN (here None). */
  function PredictionMap(code: int): (r: Option<Label>)
    ensures r.Some? <==> code == 0 || code == 1
    ensures r == Some(Benign) <==> code == 0
    ensures r == Some(Malicious) <==> code == 1
  {
    if code == 0 then Some(Benign) else if code == 1 then Some(Malicious) else None
  }

  /** The label the handler gives a cleaned row. */
  function PipelineLabel(row: Row, predict: Row -> int): (l: Label)
    ensures l == Benign <==> AppValidation.IsValidPacket(row) && Complete(row) && predict(row) == 0
    ensures l == Malicious <==> AppValidation.IsValidPacket(row) && Complete(row) && predict(row) == 1
    ensures !AppValidation.IsValidPacket(row) ==> l == NAP
  {
    if !AppValidation.IsValidPacket(row) then NAP
    else if !Complete(row) then NAP
    else PredictionMap(predict(row)).GetOr(NAP)
  }

  /** `df.replace([np.inf, -np.inf], np.nan, inplace=True)` */
  method ReplaceInfInPlace(frame: array<Row>)
    modifies frame
    ensures forall j :: 0 <= j < frame.Length ==> frame[j] == ReplaceInf(old(frame[j]))
  {
    var i := 0;
    while i < frame.Length
      invariant 0 <= i <= frame.Length
      invariant forall j :: 0 <= j < i ==> frame[j] == ReplaceInf(old(frame[j]))
      invariant forall j :: i <= j < frame.Length ==> frame[j] == old(frame[j])
    {
      frame[i] := ReplaceInf(frame[i]);
      i := i + 1;
    }
  }

  /** `df_output.loc[nap_mask, 'Predicted_Label'] = 'NAP'` */
  method MarkNap(predicted: array<Option<Label>>, validMask: seq<bool>)
    requires predicted.Length == |validMask|
    modifies predicted
    ensures forall j :: 0 <= j < |validMask| ==>
      predicted[j] == (if validMask[j] then old(predicted[j]) else Some(NAP))
  {
    var i := 0;
    while i < predicted.Length
      invariant 0 <= i <= predicted.Length
      invariant forall j :: 0 <= j < i ==> predicted[j] == (if validMask[j] then old(predicted[j]) else Some(NAP))
      invariant forall j :: i <= j < predicted.Length ==> predicted[j] == old(predicted[j])
    {
      if !validMask[i] {
        predicted[i] := Some(NAP);
      }
      i := i + 1;
    }
  }

  /** `df_output.loc[df_for_model.index, 'Predicted_Label'] = y_predictions_labels`: the valid rows that survive `dropna()` */
  method StoreModelLabels(predicted: array<Option<Label>>, rows: seq<Row>, validMask: seq<bool>, predict: Row -> int)
    requires predicted.Length == |rows| == |validMask|
    modifies predicted
    ensures forall j :: 0 <= j < |rows| ==>
      predicted[j] == (if validMask[j] && Complete(rows[j]) then PredictionMap(predict(rows[j])) else old(predicted[j]))
  {
    var i := 0;
    while i < predicted.Length
      invariant 0 <= i <= predicted.Length
      invariant forall j :: 0 <= j < i ==>
        predicted[j] == (if validMask[j] && Complete(rows[j]) then PredictionMap(predict(rows[j])) else old(predicted[j]))
      invariant forall j :: i <= j < predicted.Length ==> predicted[j] == old(predicted[j])
    {
      if validMask[i] && Complete(rows[i]) {
        predicted[i] := PredictionMap(predict(rows[i]));
      }
      i := i + 1;
    }
  }

  /** `df_output['Predicted_Label'].fillna('NAP', inplace=True)` */
  method FillNap(predicted: array<Option<Label>>)
    modifies predicted
    ensures forall j :: 0 <= j < predicted.Length ==> predicted[j] == Some(old(predicted[j]).GetOr(NAP))
  {
    var i := 0;
    while i < predicted.Length
      invariant 0 <= i <= predicted.Length
      invariant forall j :: 0 <= j < i ==> predicted[j] == Some(old(predicted[j]).GetOr(NAP))
      invariant forall j :: i <= j < predicted.Length ==> predicted[j] == old(predicted[j])
    {
      if predicted[i].None? {
        predicted[i] := Some(NAP);
      }
      i := i + 1;
    }
  }

  /**
   * The labelling part of `predict_csv`: returns the output frame's rows
   * (the cleaned input, every row kept, in order) and its label column.
   */
  method PredictCsv(df: seq<Row>, predict: Row -> int) returns (output: seq<Row>, labels: seq<Label>)
    ensures |output| == |df| && |labels| == |df|
    ensures forall i :: 0 <= i < |df| ==> output[i] == ReplaceInf(df[i])
    ensures forall i :: 0 <= i < |df| ==> labels[i] == PipelineLabel(output[i], predict)
  {
    var n := |df|;
    var frame := new Row[n](i requires 0 <= i < n => df[i]);
    ReplaceInfInPlace(frame);
    output := frame[..];

    var validMask := seq(n, j requires 0 <= j < n => AppValidation.IsValidPacket(output[j]));
    var predicted := new Option<Label>[n](_ => None);
    MarkNap(predicted, validMask);
    StoreModelLabels(predicted, output, validMask, predict);
    FillNap(predicted);
    labels := seq(n, j requires 0 <= j < n reads predicted => predicted[j].GetOr(NAP));
    forall j | 0 <= j < n
      ensures labels[j] == PipelineLabel(output[j], predict)
    {
      assert validMask[j] == AppValidation.IsValidPacket(output[j]);
    }
  }

  /** A row that is invalid once cleaned, or that the model did not score, is NAP; only the codes 0 and 1 give a non-NAP label. */
  lemma UnscoredRowsAreNap(row: Row, predict: Row -> int)
    requires !AppValidation.IsValidPacket(row) || !Complete(row) || (predict(row) != 0 && predict(row) != 1)
    ensures PipelineLabel(row, predict) == NAP
  {
  }

  /**
   * An infinite flow rate no longer rejects the row in this handler (it is NaN by
   * the time the validator runs), yet the row still ends NAP: the NaN drops it
   * from the model's input.
   */
  lemma InfiniteRateStillNap(row: Row, predict: Row -> int)
    requires FlowPktsPerSec in row && IsInf(row[FlowPktsPerSec])
    ensures IsNa(ReplaceInf(row)[FlowPktsPerSec])
    ensures PipelineLabel(ReplaceInf(row), predict) == NAP
  {
    var clean := ReplaceInf(row);
    assert clean[FlowPktsPerSec] == NaN;
    assert !Complete(clean);
  }
}
