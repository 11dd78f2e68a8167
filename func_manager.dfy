/**
 * The function registry (`FunctionManager`): an append-only map from a
 * function name to the callable a call of that name dispatches to.
 */
module FuncManager {
  import opened Wrappers
  import opened Errors
  import opened Callables

  /** The eleven builtins present after construction, each bound to the host callable of the same name. */
  const BuiltinFunctions: map<string, HostFunc> := map[
    "abs" := HostFunc("abs"),
    "max" := HostFunc("max"),
    "min" := HostFunc("min"),
    "sum" := HostFunc("sum"),
    "pow" := HostFunc("pow"),
    "sin" := HostFunc("math.sin"),
    "cos" := HostFunc("math.cos"),
    "tan" := HostFunc("math.tan"),
    "log" := HostFunc("math.log"),
    "exp" := HostFunc("math.exp"),
    "sqrt" := HostFunc("math.sqrt")
  ]

  class FunctionManager {
    var functions: map<string, HostFunc>

    /** Starts empty and registers the builtins one after another. */
    constructor ()
      ensures functions == BuiltinFunctions
    {
      functions := map[];
      new;
      RegisterGeneralBuiltins();
      RegisterMathBuiltins();
    }

    /** The first five registrations of the constructor: `abs`, `max`, `min`, `sum`, `pow`. */
    method RegisterGeneralBuiltins()
      requires functions == map[]
      modifies this
      ensures functions == map["abs" := HostFunc("abs"), "max" := HostFunc("max"), "min" := HostFunc("min"),
                               "sum" := HostFunc("sum"), "pow" := HostFunc("pow")]
    {
      assert "abs" !in functions;
      var r := RegisterFunc("abs", HostFunc("abs"));
      assert "max" !in functions;
      r := RegisterFunc("max", HostFunc("max"));
      assert "min" !in functions;
      r := RegisterFunc("min", HostFunc("min"));
      assert "sum" !in functions;
      r := RegisterFunc("sum", HostFunc("sum"));
      assert "pow" !in functions;
      r := RegisterFunc("pow", HostFunc("pow"));
    }

    /** The last six registrations of the constructor: the `math` functions. */
    method RegisterMathBuiltins()
      requires "sin" !in functions && "cos" !in functions && "tan" !in functions
      requires "log" !in functions && "exp" !in functions && "sqrt" !in functions
      modifies this
      ensures functions == old(functions)["sin" := HostFunc("math.sin")]["cos" := HostFunc("math.cos")]
        ["tan" := HostFunc("math.tan")]["log" := HostFunc("math.log")]["exp" := HostFunc("math.exp")]
        ["sqrt" := HostFunc("math.sqrt")]
    {
      assert "sin" !in functions;
      var r := RegisterFunc("sin", HostFunc("math.sin"));
      assert "cos" !in functions;
      r := RegisterFunc("cos", HostFunc("math.cos"));
      assert "tan" !in functions;
      r := RegisterFunc("tan", HostFunc("math.tan"));
      assert "log" !in functions;
      r := RegisterFunc("log", HostFunc("math.log"));
      assert "exp" !in functions;
      r := RegisterFunc("exp", HostFunc("math.exp"));
      assert "sqrt" !in functions;
      r := RegisterFunc("sqrt", HostFunc("math.sqrt"));
    }

    /** Adds `name` unless it is already registered; a rejection changes nothing. */
    method RegisterFunc(name: string, func: HostFunc) returns (r: Outcome<ConfigError>)
      modifies this
      ensures r.Pass? <==> name !in old(functions)
      ensures r.Fail? ==> r == Fail(DuplicateFunction(name)) && functions == old(functions)
      ensures r.Pass? ==> functions == old(functions)[name := func]
    {
      if name in functions {
        return Fail(DuplicateFunction(name));
      }
      functions := functions[name := func];
      r := Pass;
    }

    /** Looks `name` up; a missing name is a `MissingFunction` error. */
    method GetFunc(name: string) returns (r: Result<HostFunc, ConfigError>)
      ensures name in functions ==> r == Success(functions[name])
      ensures name !in functions ==> r == Failure(MissingFunction(name))
    {
      if name in functions {
        return Success(functions[name]);
      }
      return Failure(MissingFunction(name));
    }
  }

  /** The builtin names are exactly the eleven listed ones. */
  lemma BuiltinNames()
    ensures BuiltinFunctions.Keys == {"abs", "max", "min", "sum", "pow", "sin", "cos", "tan", "log", "exp", "sqrt"}
  {
  }

  /** A fresh registry rejects `sum`, finds `sqrt` and reports `run` as missing. */
  method FunctionTestRegistrations() returns (sum: Outcome<ConfigError>, sqrt: Result<HostFunc, ConfigError>,
                                               run: Result<HostFunc, ConfigError>)
    ensures sum == Fail(DuplicateFunction("sum"))
    ensures sqrt == Success(HostFunc("math.sqrt"))
    ensures run == Failure(MissingFunction("run"))
  {
    var m := new FunctionManager();
    sum := m.RegisterFunc("sum", HostFunc("sum"));
    sqrt := m.GetFunc("sqrt");
    run := m.GetFunc("run");
  }

  /** Two user functions of the function test register in turn and are then both found. */
  method UserFunctionRegistrations() returns (r0: Outcome<ConfigError>, r1: Outcome<ConfigError>,
                                              found0: Result<HostFunc, ConfigError>, found1: Result<HostFunc, ConfigError>)
    ensures r0 == Pass && r1 == Pass
    ensures found0 == Success(HostFunc("ratio_sum"))
    ensures found1 == Success(HostFunc("neg_sum"))
  {
    var m := new FunctionManager();
    r0 := m.RegisterFunc("ratio_sum", HostFunc("ratio_sum"));
    r1 := m.RegisterFunc("neg_sum", HostFunc("neg_sum"));
    found0 := m.GetFunc("ratio_sum");
    found1 := m.GetFunc("neg_sum");
  }
}
