/** One entry of a repeated section: its field values in schema order. */
module Entries {

  /** The values of an entry's fields, in the order of its section's labels. */
  type Entry = seq<string>

  /** The value written into field `i` of a new entry: `values[i] || ""`.
      A missing value and the empty string are both falsy, so either gives "". */
  function FieldValue(values: seq<string>, i: nat): (v: string)
    ensures i < |values| ==> v == values[i]
    ensures |values| <= i ==> v == ""
  {
    if i < |values| && values[i] != "" then values[i] else ""
  }

  /** `n` empty strings. */
  function Blanks(n: nat): (r: seq<string>)
    ensures |r| == n && forall i :: 0 <= i < n ==> r[i] == ""
  {
    seq(n, _ => "")
  }

  /** The `n` field values of a new entry built from `values` by position:
      short inputs are padded with "", extra values are ignored. */
  function Pad(n: nat, values: seq<string>): (r: seq<string>)
    ensures |r| == n
    ensures forall i :: 0 <= i < n && i < |values| ==> r[i] == values[i]
    ensures forall i :: |values| <= i < n ==> r[i] == ""
  {
    seq(n, i requires 0 <= i < n => FieldValue(values, i))
  }

  /** Padding is truncation of long inputs and extension of short ones by blanks. */
  lemma PadTruncatesOrExtends(n: nat, values: seq<string>)
    ensures n <= |values| ==> Pad(n, values) == values[..n]
    ensures |values| < n ==> Pad(n, values) == values + Blanks(n - |values|)
  {
  }

  /** An input of exactly the schema's length is kept as it is. */
  lemma PadExact(values: seq<string>)
    ensures Pad(|values|, values) == values
  {
  }

  /** Re-creating an entry from its own values changes nothing. */
  lemma PadIdempotent(n: nat, values: seq<string>)
    ensures Pad(n, Pad(n, values)) == Pad(n, values)
  {
  }

  /** `createEntry(fields, values)`: one field per label, in label order,
      field `index` holding `values[index] || ""`. The labels and the choice
      of input widget are presentation; only the values are kept. */
  method CreateEntry(fields: seq<string>, values: seq<string>) returns (e: Entry)
    ensures e == Pad(|fields|, values)
  {
    e := [];
    for index := 0 to |fields|
      invariant e == Pad(index, values)
    {
      e := e + [FieldValue(values, index)];
    }
  }
}
