/**
 Time-direction inversion for tabular frames: every column's values are
 reversed in lock-step, so the first row becomes the last, while every other
 attribute of the frame and of its columns passes through unchanged.  The
 input is never mutated: each column's values are copied before the copy is
 reversed.
 */
module UtilsVertical {

  import opened GrafanaData
  import JsArray

  /**
   `[...field.values].reverse()`: a fresh array holding the values in reverse
   order.  The caller's array is left as it was, because only the copy is
   reversed.
   */
  method ReversedCopy<T>(values: array<T>) returns (reversed: array<T>)
    ensures fresh(reversed)
    ensures reversed[..] == JsArray.Reversed(values[..])
    ensures values[..] == old(values[..])
  {
    reversed := JsArray.Copy(values);
    JsArray.ReverseInPlace(reversed);
  }

  /** `{ ...field, values: reversedValues }`: the column with its values reversed and nothing else changed. */
  function InvertField<T>(field: Field<T>): (r: Field<T>)
    ensures SameAttributes(r, field)
    ensures |r.values| == |field.values|
    ensures forall k :: 0 <= k < |field.values| ==> r.values[k] == field.values[|field.values| - 1 - k]
  {
    field.(values := JsArray.Reversed(field.values))
  }

  /** `invertTimeDirection`: every column reversed, in the same order; name, meta, length and extras kept. */
  function InvertTimeDirection<T>(frame: DataFrame<T>): (r: DataFrame<T>)
    ensures r.name == frame.name && r.meta == frame.meta && r.length == frame.length
    ensures r.extra == frame.extra
    ensures |r.fields| == |frame.fields|
    ensures frame.fields == [] ==> r.fields == []
    ensures forall i :: 0 <= i < |frame.fields| ==>
              SameAttributes(r.fields[i], frame.fields[i]) &&
              r.fields[i].values == JsArray.Reversed(frame.fields[i].values)
  {
    frame.(fields := JsArray.Map((f: Field<T>) => InvertField(f), frame.fields),
           length := frame.length)
  }

  /** `invertTimeDirectionInFrames`: each frame inverted, in the same order. */
  function InvertTimeDirectionInFrames<T>(frames: seq<DataFrame<T>>): (r: seq<DataFrame<T>>)
    ensures |r| == |frames|
    ensures frames == [] ==> r == []
    ensures forall i :: 0 <= i < |frames| ==>
              r[i].name == frames[i].name && r[i] == InvertTimeDirection(frames[i])
  {
    JsArray.Map((f: DataFrame<T>) => InvertTimeDirection(f), frames)
  }

  /** `hasTimeField`: true exactly when some column is tagged as time. */
  function HasTimeField<T>(frame: DataFrame<T>): (b: bool)
    ensures b <==> exists i :: 0 <= i < |frame.fields| && frame.fields[i].fieldType == Time
    ensures frame.fields == [] ==> !b
  {
    JsArray.Some((f: Field<T>) => f.fieldType == Time, frame.fields)
  }

  /** Inverting a frame twice gives back the frame. */
  lemma InvertTimeDirectionInvolution<T>(frame: DataFrame<T>)
    ensures InvertTimeDirection(InvertTimeDirection(frame)) == frame
  {
    var twice := InvertTimeDirection(InvertTimeDirection(frame));
    forall i | 0 <= i < |frame.fields|
      ensures twice.fields[i] == frame.fields[i]
    {
      JsArray.ReversedInvolution(frame.fields[i].values);
    }
    assert twice.fields == frame.fields;
  }

  /** Inverting a batch twice gives back the batch. */
  lemma InvertTimeDirectionInFramesInvolution<T>(frames: seq<DataFrame<T>>)
    ensures InvertTimeDirectionInFrames(InvertTimeDirectionInFrames(frames)) == frames
  {
    var twice := InvertTimeDirectionInFrames(InvertTimeDirectionInFrames(frames));
    forall i | 0 <= i < |frames|
      ensures twice[i] == frames[i]
    {
      InvertTimeDirectionInvolution(frames[i]);
    }
  }

  /**
   On a well-formed frame of `n` rows the result is well formed too, and its
   row `k` is the input's row `n - 1 - k` in every column at once.
   */
  lemma InvertTimeDirectionRows<T>(frame: DataFrame<T>, k: nat)
    requires WellFormed(frame)
    requires k < frame.length
    ensures WellFormed(InvertTimeDirection(frame))
    ensures Row(InvertTimeDirection(frame), k) == Row(frame, frame.length - 1 - k)
  {
    var r := InvertTimeDirection(frame);
    forall i | 0 <= i < |frame.fields|
      ensures r.fields[i].values[k] == frame.fields[i].values[frame.length - 1 - k]
    {
      assert r.fields[i] == InvertField(frame.fields[i]);
    }
  }

  /** Inversion keeps the column type tags, so the time-field test gives the same answer before and after. */
  lemma InvertTimeDirectionKeepsTimeField<T>(frame: DataFrame<T>)
    ensures HasTimeField(InvertTimeDirection(frame)) == HasTimeField(frame)
  {
    var r := InvertTimeDirection(frame);
    forall i | 0 <= i < |frame.fields|
      ensures r.fields[i].fieldType == frame.fields[i].fieldType
    {
      assert SameAttributes(r.fields[i], frame.fields[i]);
    }
  }
}
