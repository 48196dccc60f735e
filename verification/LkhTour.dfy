/** Reading a tour back from the external solver's output. */
module LkhTour {
  import opened Domain
  import opened Sequences
  import opened Lkh

  /** One trimmed line of a tour file, by the test that classifies it. */
  datatype Line = Section | Terminator | Number(value: nat) | Other

  /** The lines between the first section header and the terminator, without headers. */
  function Body(lines: seq<Line>, inTour: bool): seq<Line> {
    if |lines| == 0 then []
    else if lines[0].Section? then Body(lines[1..], true)
    else if !inTour then Body(lines[1..], false)
    else if lines[0].Terminator? then []
    else [lines[0]] + Body(lines[1..], true)
  }

  lemma BodyNext(lines: seq<Line>, k: nat, inTour: bool)
    requires k < |lines|
    ensures Body(lines[k..], inTour) ==
      if lines[k].Section? then Body(lines[k + 1..], true)
      else if !inTour then Body(lines[k + 1..], false)
      else if lines[k].Terminator? then []
      else [lines[k]] + Body(lines[k + 1..], true)
  {
    assert lines[k..][0] == lines[k] && lines[k..][1..] == lines[k + 1..];
  }

  predicate NodeLine(line: Line, dimension: nat) {
    line.Number? && 1 <= line.value <= dimension
  }

  ghost predicate Nodes(body: seq<Line>, nodes: seq<nat>, dimension: nat) {
    |body| == |nodes| && forall i | 0 <= i < |body| :: NodeLine(body[i], dimension) && body[i].value == nodes[i] + 1
  }

  /** The lines describe this tour: a node line for each node, every node once. */
  ghost predicate Lists(lines: seq<Line>, nodes: seq<nat>, dimension: nat) {
    Nodes(Body(lines, false), nodes, dimension) && Tour(nodes, dimension)
  }

  /** The lines before `k` contribute the nodes read so far to the body. */
  ghost predicate Parsed(lines: seq<Line>, k: nat, inTour: bool, nodes: seq<nat>, dimension: nat) {
    && k <= |lines| && |nodes| <= |Body(lines, false)|
    && Nodes(Body(lines, false)[..|nodes|], nodes, dimension)
    && Body(lines, false)[|nodes|..] == Body(lines[k..], inTour)
  }

  lemma ParsedNext(lines: seq<Line>, k: nat, nodes: seq<nat>, dimension: nat)
    requires k < |lines| && Parsed(lines, k, true, nodes, dimension)
    requires !lines[k].Section? && !lines[k].Terminator?
    ensures |Body(lines, false)| > |nodes| && Body(lines, false)[|nodes|] == lines[k]
    ensures NodeLine(lines[k], dimension) ==> Parsed(lines, k + 1, true, nodes + [lines[k].value - 1], dimension)
    ensures !NodeLine(lines[k], dimension) ==> forall other :: !Lists(lines, other, dimension)
  {
    var body := Body(lines, false);
    BodyNext(lines, k, true);
    assert body[|nodes|] == body[|nodes|..][0];
    assert body[|nodes| + 1..] == body[|nodes|..][1..];
    assert body[..|nodes| + 1] == body[..|nodes|] + [lines[k]];
  }

  lemma ParsedSkips(lines: seq<Line>, k: nat, inTour: bool, nodes: seq<nat>, dimension: nat)
    requires k < |lines| && Parsed(lines, k, inTour, nodes, dimension) && (lines[k].Section? || !inTour)
    ensures Parsed(lines, k + 1, inTour || lines[k].Section?, nodes, dimension)
  {
    BodyNext(lines, k, inTour);
  }

  /** At the terminator or the end of the file, all lines of the tour have been read. */
  lemma ParsedAll(lines: seq<Line>, k: nat, inTour: bool, nodes: seq<nat>, dimension: nat)
    requires Parsed(lines, k, inTour, nodes, dimension)
    requires k < |lines| ==> inTour && lines[k].Terminator?
    ensures Nodes(Body(lines, false), nodes, dimension)
    ensures forall other | Lists(lines, other, dimension) :: other == nodes
    ensures |nodes| != dimension || |Elements(nodes)| != dimension ==> forall other :: !Lists(lines, other, dimension)
  {
    if k < |lines| { BodyNext(lines, k, inTour); }
    assert Body(lines, false)[|nodes|..] == [];
    assert Body(lines, false)[..|nodes|] == Body(lines, false);
  }

  /** Read a tour: one-based node numbers up to the terminator, each node once. */
  method ParseTour(lines: seq<Line>, dimension: nat) returns (r: Result<seq<nat>, SolverError>)
    ensures r.Ok? ==> Lists(lines, r.value, dimension)
    ensures r.Err? ==> r.error.Failed? && forall nodes :: !Lists(lines, nodes, dimension)
  {
    var nodes: seq<nat> := [];
    var inTour, k := false, 0;
    while k < |lines|
      invariant Parsed(lines, k, inTour, nodes, dimension)
    {
      var line := lines[k];
      if line.Section? {
        ParsedSkips(lines, k, inTour, nodes, dimension);
        inTour := true;
      } else if inTour {
        if line.Terminator? {
          break;
        }
        ParsedNext(lines, k, nodes, dimension);
        if !NodeLine(line, dimension) {
          return Err(Failed("invalid tour node"));
        }
        nodes := nodes + [line.value - 1];
      } else {
        ParsedSkips(lines, k, inTour, nodes, dimension);
      }
      k := k + 1;
    }
    ParsedAll(lines, k, inTour, nodes, dimension);
    if |nodes| != dimension || |Elements(nodes)| != dimension {
      return Err(Failed("tour must contain every transformed node exactly once"));
    }
    RepeatsShrink(nodes);
    r := Ok(nodes);
  }
}
