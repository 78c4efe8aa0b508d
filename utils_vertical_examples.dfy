/**
 The concrete scenarios asserted for the frame utilities, stated as lemmas
 over the model.
 */
module UtilsVerticalExamples {

  import opened GrafanaData
  import opened UtilsVertical

  function Column<T>(name: string, fieldType: FieldType, values: seq<T>): Field<T>
  {
    Field(name, fieldType, Obj(map[]), None, values, map[])
  }

  /** A time column and a number column are both reversed. */
  lemma TwoColumnsReversed()
    ensures var frame := DataFrame(Some("test"), None, 3,
                                   [Column("time", Time, [1000, 2000, 3000]),
                                    Column("value", Number, [10, 20, 30])], map[]);
            var r := InvertTimeDirection(frame);
            r.length == 3 && r.name == Some("test") &&
            r.fields[0].values == [3000, 2000, 1000] &&
            r.fields[1].values == [30, 20, 10]
  {
  }

  /** A frame without columns stays without columns and keeps its length of zero. */
  lemma EmptyFrameStaysEmpty()
    ensures var r := InvertTimeDirection(DataFrame<int>.DataFrame(Some("empty"), None, 0, [], map[]));
            r.fields == [] && r.length == 0 && r.name == Some("empty")
  {
  }

  /** Frame meta and a column's unit config and labels come through untouched. */
  lemma MetadataAndFieldPropertiesKept()
    ensures var meta := Obj(map["custom" := Obj(map["test" := Str("value")])]);
            var temperature := Field("temperature", Number, Obj(map["unit" := Str("celsius")]),
                                     Some(map["sensor" := "A"]), [20, 25], map[]);
            var r := InvertTimeDirection(DataFrame(Some("test-frame"), Some(meta), 2, [temperature], map[]));
            r.meta == Some(meta) && r.name == Some("test-frame") &&
            r.fields[0].name == "temperature" && r.fields[0].fieldType == Number &&
            r.fields[0].config == Obj(map["unit" := Str("celsius")]) &&
            r.fields[0].labels == Some(map["sensor" := "A"]) &&
            r.fields[0].values == [25, 20]
  {
  }

  /** Two frames are each inverted and stay in their positions. */
  lemma BatchKeepsOrder()
    ensures var frames := [DataFrame(Some("frame1"), None, 2, [Column("time", Time, [1000, 2000])], map[]),
                           DataFrame(Some("frame2"), None, 2, [Column("time", Time, [3000, 4000])], map[])];
            var r := InvertTimeDirectionInFrames(frames);
            |r| == 2 &&
            r[0].name == Some("frame1") && r[0].fields[0].values == [2000, 1000] &&
            r[1].name == Some("frame2") && r[1].fields[0].values == [4000, 3000]
  {
  }

  /** An empty batch gives an empty batch. */
  lemma EmptyBatch()
    ensures InvertTimeDirectionInFrames<int>([]) == []
  {
  }

  /**
   The time-field test on a mixed frame, a frame of number and string columns
   (values held as opaque JSON values, since its columns differ in element
   type), and an empty frame.
   */
  lemma TimeFieldDetection()
    ensures HasTimeField(DataFrame(Some("test"), None, 1,
                                   [Column("time", Time, [1000]), Column("value", Number, [10])], map[]))
    ensures !HasTimeField(DataFrame(Some("test"), None, 1,
                                    [Column("value", Number, [Num("10")]), Column("label", String, [Str("test")])], map[]))
    ensures !HasTimeField(DataFrame<int>.DataFrame(Some("empty"), None, 0, [], map[]))
  {
    var mixed := DataFrame(Some("test"), None, 1,
                           [Column("time", Time, [1000]), Column("value", Number, [10])], map[]);
    assert mixed.fields[0].fieldType == Time;
  }
}
