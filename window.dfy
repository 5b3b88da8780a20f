/** The solver window: `solve_equation`, the handler of the Solve button,
    together with `plot_graph`, both of which write the output text box. */
module Window {
  import opened PyText
  import opened Engine
  import opened Formatting
  import opened Systems

  /** The four entries of the equation-type drop-down, in order. */
  const Algebraic := "Algebraic Equation"
  const Differentiation := "Differentiation"
  const Integration := "Integration"
  const SystemMode := "System of Equations"

  /** The one variable of the single-equation modes. */
  const X := "x"

  const EmptyPrompt := "Please enter an equation."
  const InvalidSelection := "Invalid selection."
  const ErrorPrefix := "Error: "
  const DerivativePrefix := "f'(x) = "
  /** The integral sign as the source text spells it. */
  const IntegralPrefix := "\U{E2}\U{2C6}\U{AB}f(x) dx = "
  const ConstantSuffix := " + C"
  const PlotError := ErrorPrefix + "Unable to plot the function. Please enter a valid equation."

  /** What one press of Solve does to the window: every text written to the
      output box, in order, and the expression handed to `plot_graph`, if any. */
  datatype Response = Response(writes: seq<string>, plotted: Option<Expr>)

  datatype Option<T> = None | Some(value: T)

  /** The text the output box shows after the press. */
  function Shown(r: Response): string
    requires |r.writes| > 0
  {
    r.writes[|r.writes| - 1]
  }

  /** What the `try` block of `solve_equation` comes to before its final
      `setText`: the text to show, or the message of the exception raised,
      and the expression handed to `plot_graph`, if any. */
  datatype Attempt = Attempt(outcome: Result<string>, plotted: Option<Expr>)

  /** Plotting the original expression once the result text is ready: only
      an exception other than `TypeError` escapes `plot_graph`. */
  function ThenPlot(e: Engine, expr: Expr, formatted: string): Attempt {
    match e.plot(expr)
    case Raised(m) => Attempt(Err(m), Some(expr))
    case _ => Attempt(Ok(formatted), Some(expr))
  }

  /** The `try` block, once `text` is known not to be blank. */
  function Try(e: Engine, mode: string, text: string): Attempt {
    match e.sympify(text)
    case Err(m) => Attempt(Err(m), None)
    case Ok(expr) =>
      if mode == Algebraic then
        match e.solve(expr, X)
        case Err(m) => Attempt(Err(m), None)
        case Ok(roots) => ThenPlot(e, expr, FormatRoots(roots))
      else if mode == Differentiation then
        match e.diff(expr, X)
        case Err(m) => Attempt(Err(m), None)
        case Ok(d) => ThenPlot(e, expr, DerivativePrefix + d)
      else if mode == Integration then
        match e.integrate(expr, X)
        case Err(m) => Attempt(Err(m), None)
        case Ok(i) => ThenPlot(e, expr, IntegralPrefix + i + ConstantSuffix)
      else if mode == SystemMode then Attempt(Ok(SystemText(e, text)), None)
      else Attempt(Ok(InvalidSelection), None)
  }

  /** What `plot_graph` itself writes to the output box: the plot error,
      when the plot raised a `TypeError`. */
  function PlotWrites(e: Engine, plotted: Option<Expr>): seq<string> {
    if plotted.Some? && e.plot(plotted.value) == TypeFailure then [PlotError] else []
  }

  /** The text the `try` block (line 117) or the `except` (line 120) sets. */
  function Final(outcome: Result<string>): string {
    match outcome
    case Ok(formatted) => formatted
    case Err(m) => ErrorPrefix + m
  }

  /** `solve_equation` with drop-down text `mode` and input-field text `raw`. */
  function Respond(e: Engine, mode: string, raw: string): Response {
    var text := Strip(raw);
    if text == "" then Response([EmptyPrompt], None)
    else
      var a := Try(e, mode, text);
      Response(PlotWrites(e, a.plotted) + [Final(a.outcome)], a.plotted)
  }

  function PlotLog(r: Response): seq<Expr> {
    match r.plotted
    case None => []
    case Some(x) => [x]
  }

  /** What the axes show after plotting `expr`: its curve, or nothing once a
      failed plot has cleared them. */
  function AxesAfter(e: Engine, expr: Expr): Option<Expr> {
    if e.plot(expr) == Drawn then Some(expr) else None
  }

  /** Blank input (white space only) shows the prompt, plots nothing and
      asks nothing of the engine: any two engines respond alike. */
  lemma BlankInput(e: Engine, other: Engine, mode: string, raw: string)
    requires AllSpace(raw)
    ensures Respond(e, mode, raw) == Response([EmptyPrompt], None)
    ensures Respond(e, mode, raw) == Respond(other, mode, raw)
  {
    StripEmptyIffBlank(raw);
  }

  /** Input with a visible character is parsed, in every mode. */
  lemma NonBlankIsParsed(e: Engine, mode: string, raw: string, m: string)
    requires !AllSpace(raw)
    requires e.sympify(Strip(raw)) == Err(m)
    ensures Respond(e, mode, raw) == Response([ErrorPrefix + m], None)
  {
    StripEmptyIffBlank(raw);
  }

  /** A drop-down text other than the four entries, on parsed input. */
  lemma UnknownMode(e: Engine, mode: string, raw: string)
    requires Strip(raw) != "" && e.sympify(Strip(raw)).Ok?
    requires mode != Algebraic && mode != Differentiation
    requires mode != Integration && mode != SystemMode
    ensures Respond(e, mode, raw) == Response([InvalidSelection], None)
  {
  }

  /** A failure of `solve`, `diff` or `integrate` is shown as "Error: "
      followed by its message, and nothing is plotted. */
  lemma EngineFailureShown(e: Engine, mode: string, raw: string, m: string)
    requires Strip(raw) != "" && e.sympify(Strip(raw)).Ok?
    requires var x := e.sympify(Strip(raw)).value;
      || (mode == Algebraic && e.solve(x, X) == Err(m))
      || (mode == Differentiation && e.diff(x, X) == Err(m))
      || (mode == Integration && e.integrate(x, X) == Err(m))
    ensures Respond(e, mode, raw) == Response([ErrorPrefix + m], None)
  {
  }

  /** An exception other than `TypeError` raised while plotting escapes
      `plot_graph` and is shown as "Error: " followed by its message, in
      place of the mode's result. */
  lemma PlotRaisedShown(e: Engine, mode: string, raw: string, m: string)
    requires Strip(raw) != "" && e.sympify(Strip(raw)).Ok?
    requires e.plot(e.sympify(Strip(raw)).value) == Raised(m)
    requires var x := e.sympify(Strip(raw)).value;
      || (mode == Algebraic && e.solve(x, X).Ok?)
      || (mode == Differentiation && e.diff(x, X).Ok?)
      || (mode == Integration && e.integrate(x, X).Ok?)
    ensures Respond(e, mode, raw) == Response([ErrorPrefix + m], Some(e.sympify(Strip(raw)).value))
  {
  }

  /** The text each single-variable mode shows once its engine call and the
      plot succeed, or the plot fails with a `TypeError`. */
  lemma SingleModeShown(e: Engine, mode: string, raw: string)
    requires Strip(raw) != "" && e.sympify(Strip(raw)).Ok?
    requires !e.plot(e.sympify(Strip(raw)).value).Raised?
    ensures var x := e.sympify(Strip(raw)).value;
      var r := Respond(e, mode, raw);
      && (mode == Algebraic && e.solve(x, X).Ok? ==>
            Shown(r) == FormatRoots(e.solve(x, X).value))
      && (mode == Differentiation && e.diff(x, X).Ok? ==>
            Shown(r) == "f'(x) = " + e.diff(x, X).value)
      && (mode == Integration && e.integrate(x, X).Ok? ==>
            Shown(r) == IntegralPrefix + e.integrate(x, X).value + " + C")
  {
  }

  /** System mode shows what `solve_system` returns on the stripped text,
      once that text has parsed as a whole, and never plots. */
  lemma SystemModeShown(e: Engine, raw: string)
    requires Strip(raw) != "" && e.sympify(Strip(raw)).Ok?
    ensures Respond(e, SystemMode, raw) == Response([SystemText(e, Strip(raw))], None)
  {
  }

  /** `plot_graph` is called exactly in the three single-variable modes,
      once the input has parsed and the mode's engine call has succeeded,
      and always with the original expression, never with its derivative
      or integral. */
  lemma PlotsOriginalExpression(e: Engine, mode: string, raw: string)
    ensures var text := Strip(raw);
      var r := Respond(e, mode, raw);
      r.plotted.Some? <==>
        && text != "" && e.sympify(text).Ok?
        && var x := e.sympify(text).value;
          || (mode == Algebraic && e.solve(x, X).Ok?)
          || (mode == Differentiation && e.diff(x, X).Ok?)
          || (mode == Integration && e.integrate(x, X).Ok?)
    ensures var r := Respond(e, mode, raw);
      r.plotted.Some? ==> e.sympify(Strip(raw)) == Ok(r.plotted.value)
  {
  }

  /** When the plot raises a `TypeError`, `plot_graph` writes the plot error
      first and the result then replaces it: the plot error is never what
      stays on display. */
  lemma PlotErrorOverwritten(e: Engine, mode: string, raw: string)
    requires var r := Respond(e, mode, raw);
      r.plotted.Some? && e.plot(r.plotted.value) == TypeFailure
    ensures var r := Respond(e, mode, raw);
      && |r.writes| == 2 && r.writes[0] == PlotError
      && Shown(r) == Final(Try(e, mode, Strip(raw)).outcome)
      && Shown(r) != PlotError
  {
    var text := Strip(raw);
    var x := e.sympify(text).value;
    var r := Respond(e, mode, raw);
    assert PlotError[0] == ErrorPrefix[0] == 'E';
    if mode == Algebraic {
      assert Shown(r) == SolutionsHeader + Entries(e.solve(x, X).value);
      assert Shown(r)[0] == 'S';
    } else if mode == Differentiation {
      assert Shown(r)[0] == 'f';
    } else {
      assert Shown(r)[0] == '\U{E2}';
    }
  }

  class SolverWindow {
    /** `equation_type_combo.currentText()`. */
    var selected: string
    /** `equation_input.text()`. */
    var entered: string
    /** The text of `solution_output`. */
    var output: string
    /** Every text ever set on `solution_output`, in order. */
    ghost var outputLog: seq<string>
    /** The curve the axes show; `None` after `ax.clear()` until a plot succeeds. */
    var axes: Option<Expr>
    /** Every expression handed to `plot_graph`, in order. */
    ghost var plotLog: seq<Expr>

    /** The output box shows the last text set on it, and is empty before
        the first. */
    ghost predicate Valid()
      reads this
    {
      output == (if outputLog == [] then "" else outputLog[|outputLog| - 1])
    }

    /** A new window: the first drop-down entry selected, every field empty. */
    constructor ()
      ensures Valid()
      ensures selected == Algebraic && entered == "" && output == ""
      ensures outputLog == [] && axes == None && plotLog == []
    {
      selected := Algebraic;
      entered := "";
      output := "";
      outputLog := [];
      axes := None;
      plotLog := [];
    }

    /** `solution_output.setText(text)`. */
    method SetText(text: string)
      modifies this
      ensures Valid()
      ensures output == text && outputLog == old(outputLog) + [text]
      ensures selected == old(selected) && entered == old(entered)
      ensures axes == old(axes) && plotLog == old(plotLog)
    {
      output := text;
      outputLog := outputLog + [text];
    }

    /** `plot_graph(expr)`; the exception message it lets through, if any. */
    method PlotGraph(e: Engine, expr: Expr) returns (raised: Option<string>)
      requires Valid()
      modifies this
      ensures Valid()
      ensures raised == (if e.plot(expr).Raised? then Some(e.plot(expr).message) else None)
      ensures outputLog == old(outputLog) + (if e.plot(expr) == TypeFailure then [PlotError] else [])
      ensures axes == AxesAfter(e, expr) && plotLog == old(plotLog) + [expr]
      ensures selected == old(selected) && entered == old(entered)
      ensures e.plot(expr) != TypeFailure ==> output == old(output)
    {
      axes := None;
      plotLog := plotLog + [expr];
      match e.plot(expr)
      case Drawn =>
        axes := Some(expr);
        raised := None;
      case TypeFailure =>
        SetText(PlotError);
        raised := None;
      case Raised(m) =>
        raised := Some(m);
    }

    /** `solve_equation()`, the handler of the Solve button. */
    method SolveEquation(e: Engine)
      requires Valid()
      modifies this
      ensures Valid()
      ensures var r := Respond(e, old(selected), old(entered));
        && |r.writes| > 0
        && outputLog == old(outputLog) + r.writes
        && output == Shown(r)
        && plotLog == old(plotLog) + PlotLog(r)
        && axes == (if r.plotted.Some? then AxesAfter(e, r.plotted.value) else old(axes))
      ensures selected == old(selected) && entered == old(entered)
    {
      var eqType := selected;
      var text := Strip(entered);
      if text == "" {
        assert Respond(e, eqType, old(entered)) == Response([EmptyPrompt], None);
        SetText(EmptyPrompt);
        return;
      }
      var outcome, plotted := TryBlock(e, eqType, text);
      ghost var r := Response(PlotWrites(e, plotted) + [Final(outcome)], plotted);
      assert Respond(e, eqType, old(entered)) == r;
      SetText(Final(outcome));
      assert outputLog == old(outputLog) + r.writes;
    }

    /** The `try` block of `solve_equation` up to its `setText`. An exception
        raised in it is returned as `Err`, for the `except` to show. */
    method TryBlock(e: Engine, eqType: string, text: string)
      returns (outcome: Result<string>, ghost plotted: Option<Expr>)
      requires Valid()
      modifies this
      ensures Valid()
      ensures Attempt(outcome, plotted) == Try(e, eqType, text)
      ensures outputLog == old(outputLog) + PlotWrites(e, plotted)
      ensures PlotWrites(e, plotted) == [] ==> output == old(output)
      ensures plotLog == old(plotLog) + (if plotted.Some? then [plotted.value] else [])
      ensures axes == (if plotted.Some? then AxesAfter(e, plotted.value) else old(axes))
      ensures selected == old(selected) && entered == old(entered)
    {
      plotted := None;
      var parsed := e.sympify(text);
      if parsed.Err? {
        return Err(parsed.message), plotted;
      }
      var expr := parsed.value;
      if eqType == Algebraic {
        var solutions := e.solve(expr, X);
        if solutions.Err? {
          return Err(solutions.message), plotted;
        }
        var formatted := FormatStepSolution(solutions.value);
        var raised := PlotGraph(e, expr);
        plotted := Some(expr);
        outcome := if raised.Some? then Err(raised.value) else Ok(formatted);
      } else if eqType == Differentiation {
        var derivative := e.diff(expr, X);
        if derivative.Err? {
          return Err(derivative.message), plotted;
        }
        var formatted := DerivativePrefix + derivative.value;
        var raised := PlotGraph(e, expr);
        plotted := Some(expr);
        outcome := if raised.Some? then Err(raised.value) else Ok(formatted);
      } else if eqType == Integration {
        var integral := e.integrate(expr, X);
        if integral.Err? {
          return Err(integral.message), plotted;
        }
        var formatted := IntegralPrefix + integral.value + ConstantSuffix;
        var raised := PlotGraph(e, expr);
        plotted := Some(expr);
        outcome := if raised.Some? then Err(raised.value) else Ok(formatted);
      } else if eqType == SystemMode {
        var formatted := SolveSystem(e, text);
        outcome := Ok(formatted);
      } else {
        outcome := Ok(InvalidSelection);
      }
    }
  }
}
