/** The values every solver shares: minutes of one day, locations with opening
    windows, the optimization problem and the sparse directed travel matrix. */
module Domain {

  const MINUTES_PER_DAY := 1440
  const U32_LIMIT := 0x1_0000_0000

  /** A local wall-clock minute of the single day. */
  type Minute = m: nat | m < MINUTES_PER_DAY

  /** An unsigned 32-bit integer. */
  type U32 = v: nat | v < U32_LIMIT

  datatype Option<+T> = None | Some(value: T) {
    predicate IsFailure() { None? }

    function PropagateFailure<U>(): Option<U>
      requires None?
    {
      None
    }

    function Extract(): T
      requires Some?
    {
      value
    }
  }

  datatype Result<+T, +E> = Ok(value: T) | Err(error: E) {
    predicate IsFailure() { Err? }

    function PropagateFailure<U>(): Result<U, E>
      requires Err?
    {
      Err(error)
    }

    function Extract(): T
      requires Ok?
    {
      value
    }
  }

  datatype StartPolicy = Fixed | Earliest | Latest

  datatype VisitPolicy = AllRequired | BestEffortOnFailure

  datatype TimeWindow = TimeWindow(open: Minute, close: Minute)

  datatype Location = Location(id: string, window: TimeWindow, stay: U32, required: bool, priority: nat)

  datatype Problem = Problem(
    locations: seq<Location>,
    startTime: Minute,
    startPolicy: StartPolicy,
    visitPolicy: VisitPolicy)
  {
    /** What request validation establishes: both endpoints are required, an
        all-required request has no optional location, priorities are small. */
    ghost predicate Valid() {
      && 1 <= |locations|
      && locations[0].required
      && locations[|locations| - 1].required
      && (visitPolicy == AllRequired ==> forall i | 0 <= i < |locations| :: locations[i].required)
      && (forall i | 0 <= i < |locations| :: 1 <= locations[i].priority <= 100)
      && (forall i | 0 <= i < |locations| :: locations[i].window.open <= locations[i].window.close)
    }

    /** The destination is the last location of the request. */
    function End(): int { |locations| - 1 }
  }

  /** Row-major directed travel minutes; `None` is a known unreachable arc. */
  datatype Matrix = Matrix(rows: seq<seq<Option<U32>>>)
  {
    ghost predicate Valid() {
      forall i | 0 <= i < |rows| :: |rows[i]| == |rows| && rows[i][i] == Some(0)
    }

    function Travel(from: nat, to: nat): Option<U32> {
      if from < |rows| && to < |rows[from]| then rows[from][to] else None
    }
  }

  datatype Input = Input(problem: Problem, matrix: Matrix)
  {
    ghost predicate Valid() {
      problem.Valid() && matrix.Valid()
    }

    /** The matrix has one row for each location of the problem. */
    predicate Matched() {
      |matrix.rows| == |problem.locations|
    }

    function Count(): nat { |problem.locations| }
  }

  /** An arc a route may use: reachable, not into the start, not out of the end. */
  predicate HasArc(input: Input, from: nat, to: nat) {
    from < input.Count() && to < input.Count() && from != to && to != 0 && from != input.problem.End() &&
    input.matrix.Travel(from, to).Some?
  }

  /** What polling the cancellation token, or asking whether time is up, answers at each
      moment. A poll is made at some moment that the program does not choose. */
  type Token = nat -> bool

  /** No poll is ever positive. */
  ghost predicate Quiet(token: Token) {
    forall moment: nat :: !Says(token, moment)
  }

  predicate Says(token: Token, moment: nat) { token(moment) }

  /** One poll. */
  method Poll(token: Token) returns (positive: bool)
    ensures exists moment: nat :: positive == Says(token, moment)
  {
    var moment: nat :| 0 <= moment;
    positive := Says(token, moment);
  }

  datatype SolverError =
    | Cancelled
    | NoFeasibleRoute
    | ProvenInfeasible
    | Unsupported
    | TimedOut
    | UnsupportedLocationCount(maximum: nat, actual: nat)
    | MatrixSizeMismatch(matrix: nat, locations: nat)
    | InvalidVisitOrder
    | Failed(message: string)

  function Max(a: nat, b: nat): (r: nat)
    ensures r >= a && r >= b && (r == a || r == b)
  {
    if a >= b then a else b
  }

  /** 32-bit addition that reports overflow. */
  function CheckedAdd(a: nat, b: nat): (r: Option<nat>)
    ensures r.Some? <==> a + b < U32_LIMIT
    ensures r.Some? ==> r.value == a + b
  {
    if a + b < U32_LIMIT then Some(a + b) else None
  }
}
