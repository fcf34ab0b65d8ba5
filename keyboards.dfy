/** Reply keyboards laid out two buttons per row, as both vacancy prompts build them. */
module Keyboards {
  import opened Seqs

  /** `for (let i = 0; i < items.length; i += 2) keyboard.push(items.slice(i, i + 2))`. */
  method ChunkPairs<T>(items: seq<T>) returns (rows: seq<seq<T>>)
    ensures |rows| == (|items| + 1) / 2
    ensures forall k :: 0 <= k < |rows| ==> 1 <= |rows[k]| <= 2
    ensures forall k :: 0 <= k < |rows| - 1 ==> |rows[k]| == 2
    ensures Flatten(rows) == items
  {
    rows := [];
    var i := 0;
    while i < |items|
      invariant i == 2 * |rows| && i <= |items| + 1
      invariant i <= |items| ==> Flatten(rows) == items[..i]
      invariant i > |items| ==> Flatten(rows) == items
      invariant forall k :: 0 <= k < |rows| ==> |rows[k]| == (if 2 * k + 2 <= |items| then 2 else |items| - 2 * k)
    {
      var end := if i + 2 <= |items| then i + 2 else |items|;
      assert items[..i] + items[i..end] == items[..end];
      rows := rows + [items[i..end]];
      assert rows[..|rows| - 1] == rows[..|rows| - 1];
      i := i + 2;
      if end == |items| { assert items[..end] == items; }
    }
    if i == |items| { assert items[..i] == items; }
  }
}
