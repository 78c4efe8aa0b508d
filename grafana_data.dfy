/**
 The record shape of the host library's tabular data: a `DataFrame` is an
 ordered list of typed `Field`s (columns) plus pass-through metadata.  Only
 the parts the frame utilities touch are given structure; configuration,
 metadata and any extra duck-typed properties are opaque values that are
 carried along and never inspected.
 */
module GrafanaData {

  datatype Option<T> = None | Some(value: T)

  /** The column type tag. `Other` stands for every tag besides time, number and string. */
  datatype FieldType = Time | Number | String | Other

  /**
   An opaque, JSON-like value for the slots the utilities never interpret
   (field config, frame meta, extra properties).  Numbers are kept as their
   literal text, since nothing here computes with them.
   */
  datatype JsonValue =
    | Null
    | Bool(b: bool)
    | Num(literal: string)
    | Str(s: string)
    | Arr(items: seq<JsonValue>)
    | Obj(members: map<string, JsonValue>)

  /** One column: name, type tag, config, optional labels, values, and any extra properties. */
  datatype Field<T> = Field(
    name: string,
    fieldType: FieldType,
    config: JsonValue,
    labels: Option<map<string, string>>,
    values: seq<T>,
    extra: map<string, JsonValue>)

  /** A table: optional name and meta, the declared row count, the columns, and any extra properties. */
  datatype DataFrame<T> = DataFrame(
    name: Option<string>,
    meta: Option<JsonValue>,
    length: nat,
    fields: seq<Field<T>>,
    extra: map<string, JsonValue>)

  /** Every column holds exactly `length` values (the host guarantees this; nothing checks it). */
  predicate WellFormed<T>(frame: DataFrame<T>)
  {
    forall i :: 0 <= i < |frame.fields| ==> |frame.fields[i].values| == frame.length
  }

  /** Two columns agree on everything except their values. */
  predicate SameAttributes<T>(f: Field<T>, g: Field<T>)
  {
    f.name == g.name && f.fieldType == g.fieldType && f.config == g.config &&
    f.labels == g.labels && f.extra == g.extra
  }

  /** Row `k` of a frame: the `k`-th value of every column, in column order. */
  function Row<T>(frame: DataFrame<T>, k: nat): (row: seq<T>)
    requires forall i :: 0 <= i < |frame.fields| ==> k < |frame.fields[i].values|
    ensures |row| == |frame.fields|
    ensures forall i :: 0 <= i < |frame.fields| ==> row[i] == frame.fields[i].values[k]
  {
    seq(|frame.fields|, i requires 0 <= i < |frame.fields| => frame.fields[i].values[k])
  }
}
