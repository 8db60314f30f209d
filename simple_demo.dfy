/**
  The calculator functions of the MCP demo script and the loop that collects one result per
  calculation, with `None` where the function raised.
 */
module SimpleDemo {
  import opened Wrappers

  /** `add(a, b)`. Python integers are unbounded, like Dafny's. */
  function Add(a: int, b: int): (r: int)
    ensures r - b == a && r - a == b
  {
    a + b
  }

  /** `subtract(a, b)`. */
  function Subtract(a: int, b: int): (r: int)
    ensures r + b == a
  {
    a - b
  }

  /** `multiply(a, b)`. */
  function Multiply(a: int, b: int): (r: int)
    ensures r == 0 <==> a == 0 || b == 0
  {
    a * b
  }

  const DivideByZeroMessage: string := "Cannot divide by zero!"

  /** `divide(a, b)`: raises `ValueError` for a zero divisor, and otherwise returns the
      quotient, here the exact one. */
  function Divide(a: int, b: int): (r: Result<real, string>)
    ensures r.Failure? <==> b == 0
    ensures r.Failure? ==> r.error == DivideByZeroMessage
    ensures r.Success? ==> r.value * (b as real) == a as real
  {
    if b == 0 then Failure(DivideByZeroMessage) else Success(a as real / b as real)
  }

  /** Subtracting undoes adding. */
  lemma SubtractUndoesAdd(a: int, b: int)
    ensures Subtract(Add(a, b), b) == a
  {
  }

  /** Dividing a product by a non-zero factor gives back the other factor. */
  lemma DivideUndoesMultiply(a: int, b: int)
    requires b != 0
    ensures Divide(Multiply(a, b), b) == Success(a as real)
  {
    var q := Divide(Multiply(a, b), b).value;
    assert q * (b as real) == (a as real) * (b as real);
  }

  // ---------------------------------------------------------------------------------------
  // simple_calculator_demo

  datatype Operation = AddOp | SubtractOp | MultiplyOp | DivideOp

  /** A Python `int` (from add, subtract, multiply) or `float` (from divide) result. */
  datatype Number = Int(i: int) | Real(r: real)

  /** One entry `(a, b, func)` of the list of calculations. */
  datatype Calculation = Calculation(a: int, b: int, op: Operation)

  /** `func(a, b)`. */
  function Apply(c: Calculation): (r: Result<Number, string>)
    ensures r.Failure? <==> c.op == DivideOp && c.b == 0
  {
    match c.op
    case AddOp => Success(Int(Add(c.a, c.b)))
    case SubtractOp => Success(Int(Subtract(c.a, c.b)))
    case MultiplyOp => Success(Int(Multiply(c.a, c.b)))
    case DivideOp =>
      match Divide(c.a, c.b)
      case Success(q) => Success(Real(q))
      case Failure(e) => Failure(e)
  }

  /** The entry the demo appends for a calculation: its result, or `None` if it raised. */
  function Entry(c: Calculation): Option<Number> {
    match Apply(c)
    case Success(v) => Some(v)
    case Failure(_) => None
  }

  /** The loop of `simple_calculator_demo`: exactly one entry per calculation, in order. */
  method RunCalculations(calculations: seq<Calculation>) returns (results: seq<Option<Number>>)
    ensures |results| == |calculations|
    ensures forall k :: 0 <= k < |calculations| ==> results[k] == Entry(calculations[k])
    ensures forall k :: 0 <= k < |calculations| ==>
      (results[k].None? <==> calculations[k].op == DivideOp && calculations[k].b == 0)
  {
    results := [];
    for i := 0 to |calculations|
      invariant |results| == i
      invariant forall k :: 0 <= k < i ==> results[k] == Entry(calculations[k])
    {
      var c := calculations[i];
      match Apply(c)
      case Success(v) =>
        results := results + [Some(v)];
      case Failure(_) =>
        results := results + [None];
    }
  }

  /** The calculations the demo runs. */
  const DemoCalculations: seq<Calculation> := [
    Calculation(100, 200, AddOp),
    Calculation(300, 50, SubtractOp),
    Calculation(15, 4, MultiplyOp),
    Calculation(20, 5, DivideOp)
  ]

  /** `simple_calculator_demo()`: the list of results it returns. */
  method SimpleCalculatorDemo() returns (results: seq<Option<Number>>)
    ensures results == [Some(Int(300)), Some(Int(250)), Some(Int(60)), Some(Real(4.0))]
  {
    results := RunCalculations(DemoCalculations);
    assert Entry(DemoCalculations[3]) == Some(Real(4.0));
  }
}
