/** `solve_system`: split the text into equations, bring each to
    "expression = 0" form, parse it, gather the free variables, solve the
    linear system and render the first solution. */
module Systems {
  import opened PyText
  import opened Names
  import opened Engine

  const SystemErrorPrefix := "Error solving system: "
  const NoSolution := "No solution found."

  /** What separates two `var = value` pairs. */
  const PairGap := "     "

  /** CPython's message when `left, right = eq.split('=')` meets more than one `=`. */
  const UnpackError := "too many values to unpack (expected 2)"

  /** One stripped piece in "expression = 0" form: `a=b` becomes `(a) - (b)`,
      a piece without `=` stays as it is, and more than one `=` fails the
      two-way unpacking. */
  function Normalise(eq: string): Result<string> {
    if '=' !in eq then Ok(eq)
    else
      var sides := Split(eq, '=');
      if |sides| == 2 then Ok("(" + sides[0] + ") - (" + sides[1] + ")")
      else Err(UnpackError)
  }

  /** One comma-separated piece, stripped, normalised and parsed. */
  function ParsePiece(e: Engine, piece: string): Result<Expr> {
    match Normalise(Strip(piece))
    case Err(m) => Err(m)
    case Ok(eq) => e.sympify(eq)
  }

  /** `v` names one of the free symbols of `x`. */
  predicate HasSymbol(e: Engine, x: Expr, v: string) {
    e.freeSymbols(x).Ok? && v in e.freeSymbols(x).value
  }

  /** The parsed equations so far and the names of their free variables. */
  datatype Parsed = Parsed(equations: seq<Expr>, variables: set<string>)

  /** The parsing loop over `pieces`, stopping at the first failure, for any
      way `parse` of turning one piece into an expression. A piece also
      fails when its result has no free symbols to read. */
  function ParseLoop(e: Engine, parse: string -> Result<Expr>, pieces: seq<string>): Result<Parsed> {
    if pieces == [] then Ok(Parsed([], {}))
    else
      match ParseLoop(e, parse, pieces[..|pieces| - 1])
      case Err(m) => Err(m)
      case Ok(p) =>
        match parse(pieces[|pieces| - 1])
        case Err(m) => Err(m)
        case Ok(x) =>
          match e.freeSymbols(x)
          case Err(m) => Err(m)
          case Ok(names) => Ok(Parsed(p.equations + [x], p.variables + names))
  }

  /** One piece stops the loop: it does not parse, or what it parses to has
      no free symbols to read. */
  predicate PieceFails(e: Engine, parse: string -> Result<Expr>, piece: string) {
    match parse(piece)
    case Err(_) => true
    case Ok(x) => e.freeSymbols(x).Err?
  }

  /** The parsing loop of `solve_system`. */
  function ParsePieces(e: Engine, pieces: seq<string>): Result<Parsed> {
    ParseLoop(e, piece => ParsePiece(e, piece), pieces)
  }

  /** `f"{var} = {value}"` for each pair `zip` forms. */
  function Pairs(vars: seq<string>, values: seq<string>): seq<string> {
    var n := if |vars| <= |values| then |vars| else |values|;
    seq(n, k requires 0 <= k < n => vars[k] + " = " + values[k])
  }

  /** `[sol.evalf() for sol in solution]`, each rendered. */
  function Numeric(e: Engine, solution: seq<Expr>): seq<string> {
    seq(|solution|, k requires 0 <= k < |solution| => e.evalf(solution[k]))
  }

  /** What is reported once the equations and the sorted variables are known. */
  function Report(e: Engine, equations: seq<Expr>, vars: seq<string>): string {
    match e.linsolve(equations, vars)
    case Err(m) => SystemErrorPrefix + m
    case Ok(solutions) =>
      if |solutions| == 0 then NoSolution
      else Join(Pairs(vars, Numeric(e, solutions[0])), PairGap)
  }

  /** The text `solve_system(text)` returns. */
  function SystemText(e: Engine, text: string): string {
    match ParsePieces(e, Split(text, ','))
    case Err(m) => SystemErrorPrefix + m
    case Ok(p) => Report(e, p.equations, SortedNames(p.variables))
  }

  /** One pass of the loop body before `append`: strip, rewrite `a=b`, parse. */
  method ParseOne(e: Engine, piece: string) returns (r: Result<Expr>)
    ensures r == ParsePiece(e, piece)
  {
    var eq := Strip(piece);
    if '=' in eq {
      var sides := Split(eq, '=');
      if |sides| != 2 {
        return Err(UnpackError);
      }
      eq := "(" + sides[0] + ") - (" + sides[1] + ")";
    }
    r := e.sympify(eq);
  }

  /** The parsing loop of `solve_system`, up to the first exception. */
  method ParseAll(e: Engine, pieces: seq<string>) returns (r: Result<Parsed>)
    ensures r == ParsePieces(e, pieces)
  {
    ghost var parse := piece => ParsePiece(e, piece);
    var equations: seq<Expr> := [];
    var variables: set<string> := {};
    for i := 0 to |pieces|
      invariant ParseLoop(e, parse, pieces[..i]) == Ok(Parsed(equations, variables))
    {
      assert pieces[..i + 1][..i] == pieces[..i];
      var parsed := ParseOne(e, pieces[i]);
      if parsed.Err? {
        FailureStops(e, parse, pieces, i + 1, parsed.message);
        return Err(parsed.message);
      }
      equations := equations + [parsed.value];
      var names := e.freeSymbols(parsed.value);
      if names.Err? {
        FailureStops(e, parse, pieces, i + 1, names.message);
        return Err(names.message);
      }
      variables := variables + names.value;
    }
    assert pieces[..|pieces|] == pieces;
    r := Ok(Parsed(equations, variables));
  }

  /** `solve_system(equation_str)`. */
  method SolveSystem(e: Engine, text: string) returns (r: string)
    ensures r == SystemText(e, text)
  {
    var parsed := ParseAll(e, Split(text, ','));
    if parsed.Err? {
      return SystemErrorPrefix + parsed.message;
    }
    var vars := SortedNames(parsed.value.variables);
    var solutions := e.linsolve(parsed.value.equations, vars);
    if solutions.Err? {
      return SystemErrorPrefix + solutions.message;
    }
    if |solutions.value| == 0 {
      return NoSolution;
    }
    var first := solutions.value[0];
    var numeric := seq(|first|, k requires 0 <= k < |first| => e.evalf(first[k]));
    r := Join(Pairs(vars, numeric), PairGap);
  }

  /** Once a prefix of the pieces fails, the whole loop fails with the same message. */
  lemma {:induction false} FailureStops(e: Engine, parse: string -> Result<Expr>, pieces: seq<string>, n: nat, m: string)
    requires n <= |pieces|
    requires ParseLoop(e, parse, pieces[..n]) == Err(m)
    ensures ParseLoop(e, parse, pieces) == Err(m)
    decreases |pieces| - n
  {
    if n < |pieces| {
      assert pieces[..n + 1][..n] == pieces[..n];
      FailureStops(e, parse, pieces, n + 1, m);
    } else {
      assert pieces[..n] == pieces;
    }
  }

  /** A piece without `=` is parsed as it is (once stripped). */
  lemma NormaliseNoEquals(eq: string)
    requires '=' !in eq
    ensures Normalise(eq) == Ok(eq)
  {
  }

  /** A piece `a=b` with one `=` becomes `(a) - (b)`, keeping the white space
      on either side of the `=`. */
  lemma NormaliseOneEquals(left: string, right: string)
    requires '=' !in left && '=' !in right
    ensures Normalise(left + "=" + right) == Ok("(" + left + ") - (" + right + ")")
  {
    var eq := left + "=" + right;
    assert eq[|left|] == '=';
    assert Join([left, right], "=") == eq;
    SplitJoin([left, right], '=');
  }

  /** Normalising fails exactly when the piece holds two `=` or more, and
      then with the unpacking error. */
  lemma NormaliseFailsIff(eq: string)
    ensures Normalise(eq).Err? <==> Occurrences(eq, '=') >= 2
    ensures Normalise(eq).Err? ==> Normalise(eq) == Err(UnpackError)
  {
    SplitShape(eq, '=');
    OccurrencesZero(eq, '=');
  }

  /** The loop fails exactly when some piece fails to normalise, to parse,
      or to give its free symbols. */
  lemma {:induction false} ParseFailsIff(e: Engine, parse: string -> Result<Expr>, pieces: seq<string>)
    ensures ParseLoop(e, parse, pieces).Err?
        <==> exists k :: 0 <= k < |pieces| && PieceFails(e, parse, pieces[k])
  {
    if pieces != [] {
      var init := pieces[..|pieces| - 1];
      ParseFailsIff(e, parse, init);
      if exists k :: 0 <= k < |init| && PieceFails(e, parse, init[k]) {
        var k :| 0 <= k < |init| && PieceFails(e, parse, init[k]);
        assert pieces[k] == init[k];
      }
      if exists k :: 0 <= k < |pieces| && PieceFails(e, parse, pieces[k]) {
        var k :| 0 <= k < |pieces| && PieceFails(e, parse, pieces[k]);
        if k < |init| {
          assert init[k] == pieces[k];
        }
      }
    }
  }

  /** When the loop succeeds it holds one parsed equation per piece, in
      order, each with its free symbols, and the variables are the union of
      those. */
  lemma {:induction false} ParsedContents(e: Engine, parse: string -> Result<Expr>, pieces: seq<string>)
    requires ParseLoop(e, parse, pieces).Ok?
    ensures var p := ParseLoop(e, parse, pieces).value;
      && |p.equations| == |pieces|
      && (forall k :: 0 <= k < |pieces| ==>
            parse(pieces[k]) == Ok(p.equations[k]) && e.freeSymbols(p.equations[k]).Ok?)
      && (forall v :: v in p.variables
            <==> exists k :: 0 <= k < |pieces| && HasSymbol(e, p.equations[k], v))
  {
    if pieces != [] {
      var init := pieces[..|pieces| - 1];
      ParsedContents(e, parse, init);
      var q := ParseLoop(e, parse, init).value;
      var p := ParseLoop(e, parse, pieces).value;
      assert p.equations[..|init|] == q.equations;
      forall k | 0 <= k < |pieces|
        ensures parse(pieces[k]) == Ok(p.equations[k]) && e.freeSymbols(p.equations[k]).Ok?
      {
        if k < |init| {
          assert pieces[k] == init[k];
        }
      }
      forall v ensures v in p.variables
          <==> exists k :: 0 <= k < |pieces| && HasSymbol(e, p.equations[k], v) {
        if v in q.variables {
          var k :| 0 <= k < |init| && HasSymbol(e, q.equations[k], v);
          assert p.equations[k] == q.equations[k];
        }
        if exists k :: 0 <= k < |pieces| && HasSymbol(e, p.equations[k], v) {
          var k :| 0 <= k < |pieces| && HasSymbol(e, p.equations[k], v);
          if k < |init| {
            assert q.equations[k] == p.equations[k];
          }
        }
      }
    }
  }

  /** A piece with two `=` or more makes `solve_system` report an error. */
  lemma DoubleEqualsFails(e: Engine, text: string, k: nat)
    requires k < |Split(text, ',')|
    requires Occurrences(Strip(Split(text, ',')[k]), '=') >= 2
    ensures |SystemErrorPrefix| <= |SystemText(e, text)|
    ensures SystemText(e, text)[..|SystemErrorPrefix|] == SystemErrorPrefix
  {
    var pieces := Split(text, ',');
    NormaliseFailsIff(Strip(pieces[k]));
    ParseFailsIff(e, piece => ParsePiece(e, piece), pieces);
  }

  /** A piece that parses to something without free symbols (a piece such
      as `[x]`, which parses to a list), after pieces that all parse and give
      theirs, makes `solve_system` report that failure's message. */
  lemma FreeSymbolsFailureReported(e: Engine, text: string, k: nat, m: string)
    requires k < |Split(text, ',')|
    requires forall j :: 0 <= j < k ==>
      ParsePiece(e, Split(text, ',')[j]).Ok? && e.freeSymbols(ParsePiece(e, Split(text, ',')[j]).value).Ok?
    requires ParsePiece(e, Split(text, ',')[k]).Ok?
    requires e.freeSymbols(ParsePiece(e, Split(text, ',')[k]).value) == Err(m)
    ensures SystemText(e, text) == SystemErrorPrefix + m
  {
    var pieces := Split(text, ',');
    var parse := piece => ParsePiece(e, piece);
    var before, upTo := pieces[..k], pieces[..k + 1];
    assert ParseLoop(e, parse, before).Ok? by {
      forall j | 0 <= j < |before| ensures !PieceFails(e, parse, before[j]) {
        assert before[j] == pieces[j];
      }
      ParseFailsIff(e, parse, before);
    }
    assert upTo[..|upTo| - 1] == before && upTo[|upTo| - 1] == pieces[k];
    assert ParseLoop(e, parse, upTo) == Err(m);
    assert ParsePieces(e, pieces) == Err(m) by {
      FailureStops(e, parse, pieces, k + 1, m);
    }
  }

  /** The variables handed to `linsolve` are the free variables of all the
      equations, each once, in increasing order of name. */
  lemma SystemVariables(e: Engine, text: string)
    requires ParsePieces(e, Split(text, ',')).Ok?
    ensures var pieces := Split(text, ',');
      var p := ParsePieces(e, pieces).value;
      var vars := SortedNames(p.variables);
      && Increasing(vars)
      && forall v :: v in vars
           <==> exists k :: 0 <= k < |p.equations| && HasSymbol(e, p.equations[k], v)
  {
    ParsedContents(e, piece => ParsePiece(e, piece), Split(text, ','));
  }

  /** Once the pieces parse, what is shown is decided by `linsolve` on the
      equations and the sorted variables. */
  lemma ParsedSystemReported(e: Engine, text: string)
    requires ParsePieces(e, Split(text, ',')).Ok?
    ensures var p := ParsePieces(e, Split(text, ',')).value;
      SystemText(e, text) == Report(e, p.equations, SortedNames(p.variables))
  {
  }

  /** A failing `linsolve` is reported with its message. */
  lemma SolverErrorReported(e: Engine, equations: seq<Expr>, vars: seq<string>, m: string)
    requires e.linsolve(equations, vars) == Err(m)
    ensures Report(e, equations, vars) == SystemErrorPrefix + m
  {
  }

  /** An empty solution set is reported as "No solution found.". */
  lemma EmptySolutionSet(e: Engine, equations: seq<Expr>, vars: seq<string>)
    requires e.linsolve(equations, vars) == Ok([])
    ensures Report(e, equations, vars) == NoSolution
  {
  }

  /** Otherwise the first solution is shown as `var = value` pairs in
      variable order, as many as the shorter of the two lists, separated by
      five spaces with none after the last. */
  lemma SolutionShown(e: Engine, equations: seq<Expr>, vars: seq<string>)
    requires e.linsolve(equations, vars).Ok? && |e.linsolve(equations, vars).value| > 0
    ensures var first := e.linsolve(equations, vars).value[0];
      var n := if |vars| <= |first| then |vars| else |first|;
      var parts := Pairs(vars, Numeric(e, first));
      var shown := Report(e, equations, vars);
      && |parts| == n
      && (forall k :: 0 <= k < n ==> parts[k] == vars[k] + " = " + e.evalf(first[k]))
      && shown == Join(parts, PairGap)
      && (n == 0 ==> shown == "")
      && (n > 0 ==> IsSuffix(parts[n - 1], shown) && shown[..|parts[0]|] == parts[0])
  {
    var first := e.linsolve(equations, vars).value[0];
    var parts := Pairs(vars, Numeric(e, first));
    if |parts| > 0 {
      JoinEndsWithLast(parts, PairGap);
    }
  }

  /** The example the input field's placeholder shows splits into its two
      equations, the space after the comma kept. */
  lemma PlaceholderExample()
    ensures Split("x + y = 5, x - y = 1", ',') == ["x + y = 5", " x - y = 1"]
  {
    assert Join(["x + y = 5", " x - y = 1"], [',']) == "x + y = 5, x - y = 1";
    SplitJoin(["x + y = 5", " x - y = 1"], ',');
  }
}
