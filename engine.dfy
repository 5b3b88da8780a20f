/** The symbolic-algebra and plotting libraries the solver calls, seen only
    through what they return. Each library call is a field of `Engine`; an
    exception it raises is an `Err` carrying the exception's `str()`, except
    for `evalf`, which never fails here, and `plot`, whose outcomes are
    spelled out in `PlotOutcome`. */
module Engine {

  /** A parsed symbolic expression, owned by the algebra library. */
  type Expr(==)

  datatype Result<T> = Ok(value: T) | Err(message: string)

  /** What becomes of `lambdify` and the sampling in `plot_graph`: the curve
      is drawn, a `TypeError` is raised (which `plot_graph` catches), or some
      other exception is raised (which it does not). */
  datatype PlotOutcome = Drawn | TypeFailure | Raised(message: string)

  datatype Engine = Engine(
    /** `sympify(text)`. */
    sympify: string -> Result<Expr>,
    /** `solve(expr, Symbol(name))`, each root rendered with `str`. */
    solve: (Expr, string) -> Result<seq<string>>,
    /** `str(diff(expr, Symbol(name)))`. */
    diff: (Expr, string) -> Result<string>,
    /** `str(integrate(expr, Symbol(name)))`. */
    integrate: (Expr, string) -> Result<string>,
    /** The names of `expr.free_symbols`; it fails when `sympify` returned
        something other than an expression (a list, say) that has no such
        attribute. */
    freeSymbols: Expr -> Result<set<string>>,
    /** `list(linsolve(equations, *symbols))`: the solution tuples. */
    linsolve: (seq<Expr>, seq<string>) -> Result<seq<seq<Expr>>>,
    /** `str(value.evalf())`. */
    evalf: Expr -> string,
    /** Plotting `expr` over the sample points. */
    plot: Expr -> PlotOutcome
  )
}
