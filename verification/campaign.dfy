/** What the campaign drivers share: the adapter they enumerate and the cells of one variant. */
module Campaign {
  import opened Types

  /** The enumeration hooks of a language adapter (`all_workloads`, `all_variants`,
      `all_strategies`, `all_properties`), as fixed functions of the workspace. */
  datatype Adapter = Adapter(
    workloads: seq<Entry>,
    variants: Entry -> seq<Variant>,
    strategies: Entry -> seq<Entry>,
    properties: Entry -> seq<string>)

  /** One (strategy, property) cell of a variant; the property already carries its `test_` prefix. */
  datatype Cell = Cell(strategy: string, property: string)

  /** One strategy's row of cells, in property order. */
  function Row(strategy: string, properties: seq<string>): seq<Cell>
  {
    seq(|properties|, i requires 0 <= i < |properties| => Cell(strategy, "test_" + properties[i]))
  }

  /** The cells of the nested `for strategy ...: for property ...:` loops, in loop order. */
  function Cells(strategies: seq<Entry>, properties: seq<string>): (r: seq<Cell>)
    ensures |r| == |strategies| * |properties|
    ensures forall c :: c in r <==> exists s, p :: s in strategies && p in properties && c == Cell(s.name, "test_" + p)
    decreases |strategies|
  {
    if strategies == [] then []
    else
      var row := Row(strategies[0].name, properties);
      var rest := Cells(strategies[1..], properties);
      assert forall s :: s in strategies <==> s == strategies[0] || s in strategies[1..];
      assert forall c :: c in row <==> exists p :: p in properties && c == Cell(strategies[0].name, "test_" + p) by {
        forall c | c in row ensures exists p :: p in properties && c == Cell(strategies[0].name, "test_" + p) {
          var i :| 0 <= i < |row| && row[i] == c;
          assert properties[i] in properties;
        }
        forall p | p in properties ensures Cell(strategies[0].name, "test_" + p) in row {
          var i :| 0 <= i < |properties| && properties[i] == p;
          assert row[i] == Cell(strategies[0].name, "test_" + p);
        }
      }
      row + rest
  }
}
