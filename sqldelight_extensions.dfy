/** `Query.executeUntilFalse(block)`: walk a query's rows until the callback says stop. */
module SqldelightExtensions {

  /**
   * Hands the rows to `block` in order and stops after the first row for
   * which it answers false, or after the last row. Returns the rows handed
   * to `block`.
   */
  method ExecuteUntilFalse<Row>(rows: seq<Row>, block: Row -> bool) returns (visited: seq<Row>)
    ensures |visited| <= |rows| && visited == rows[..|visited|]
    ensures forall k :: 0 <= k < |visited| - 1 ==> block(visited[k])
    ensures |visited| < |rows| ==> visited != [] && !block(visited[|visited| - 1])
    ensures (forall k :: 0 <= k < |rows| ==> block(rows[k])) ==> visited == rows
  {
    visited := [];
    var cont := true;
    var i := 0;
    while cont && i < |rows|
      invariant 0 <= i <= |rows| && visited == rows[..i]
      invariant forall k :: 0 <= k < i - 1 ==> block(rows[k])
      invariant cont <==> (i == 0 || block(rows[i - 1]))
    {
      visited := visited + [rows[i]];
      cont := block(rows[i]);
      i := i + 1;
    }
  }
}
