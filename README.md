# MathEquationSolver, modelled in Dafny

MathEquationSolver is a desktop window. You pick an equation type in a
drop-down ("Algebraic Equation", "Differentiation", "Integration" or "System
of Equations"), type an equation and press Solve. The window hands all the
mathematics to a symbolic-algebra library and a plotting library. What it
does itself is dispatch and text handling, and this project models that:

- the Solve handler `solve_equation`: the blank-input check, parsing, the
  branch on the drop-down text, turning any exception into an `"Error: …"`
  text, and the order in which the output box is written;
- `plot_graph`, reduced to what it does to the output box and the axes;
- `format_step_solution`, which builds the list of roots;
- `solve_system`: it splits the text on commas, and strips and rewrites each
  `a=b` piece to `(a) - (b)`. It gathers and sorts the free-variable names
  and formats the first solution as `var = value` pairs.

Every library call is a field of an `Engine` value (`engine.dfy`): a total
function from its inputs to a rendered result or a failure message. Two
fields differ: `evalf` always returns a rendered value, and the plot call
returns one of three outcomes (drawn, `TypeError`, or another exception). The
expression type `Expr` is abstract, so every property proved here holds
whatever the library does. Python's `str.strip`, `str.split`, `str.join`,
`str(int)` and string ordering are modelled exactly in `pytext.dfy` and
`names.dfy`: `strip` removes the characters `str.isspace()` accepts, and the
order compares code points.

Modules: `PyText` (string built-ins), `Names` (string order and `sorted`),
`Engine` (library interface), `Formatting` (`format_step_solution`),
`Systems` (`solve_system`), `Window` (the window class with `solve_equation`
and `plot_graph`). `SolverWindow` keeps the output text, a log of every text
written to the box, the curve the axes show and a log of plot calls.
`Respond` is the specification of one Solve press. It returns the sequence
of texts written and the expression plotted. The methods are proved to match
it, and the lemmas state what it promises.

Behaviour worth noting:

- Root entries are `"x{i+1} = {root}"` for the 0-based position `i`, each followed by five spaces, after the header `"Solutions:\n"`.
- System pairs are joined by five spaces.
- The raw text is parsed once in every mode, System mode included. So a whole-text parse failure shows `"Error: …"`, not `"Error solving system: …"`.
- A plot `TypeError` does not leave its message on screen. The result text overwrites it.
- The integral prefix is the character sequence the source file holds (U+00E2 U+02C6 U+00AB), not `∫`.

## Model

| member | source | states |
|---|---|---|
| `PyText.TrimStartSpec` | MathEquationSolver.py:86 | `lstrip` leaves a suffix of the text. Everything it removed is white space, and the rest does not start with white space. |
| `PyText.TrimEndSpec` | MathEquationSolver.py:86 | `rstrip` leaves a prefix of the text. Everything it removed is white space, and the rest does not end with white space. |
| `PyText.StripEnds` | MathEquationSolver.py:160 | A stripped text neither starts nor ends with white space. |
| `PyText.StripIsCore` | MathEquationSolver.py:86 | The stripped text is the infix of the input that starts at the first non-space character. Only white space lies on either side of it. |
| `PyText.StripEmptyIffBlank` | MathEquationSolver.py:86-88 | `strip()` returns the empty text exactly when every character of the input is white space. |
| `PyText.StripIdempotent` | MathEquationSolver.py:160 | Stripping a stripped text changes nothing. |
| `PyText.OccurrencesZero` | MathEquationSolver.py:161 | The count of `=` is zero exactly when `'=' in eq` is false. |
| `PyText.SplitShape` | MathEquationSolver.py:159 | `split(c)` yields one more piece than the text has `c` characters, and no piece contains `c`. |
| `PyText.JoinSplit` | MathEquationSolver.py:159 | Joining the pieces of `split(c)` with `c` gives back the original text. |
| `PyText.SplitJoin` | MathEquationSolver.py:162 | Splitting a `c`-join of `c`-free pieces gives back exactly those pieces. |
| `PyText.JoinEndsWithLast` | MathEquationSolver.py:180 | A join starts with its first part and ends with its last, so no separator leads or trails. |
| `PyText.Decimal` | MathEquationSolver.py:126 | `str(n)` is a non-empty string of decimal digits with no leading zero unless `n` is 0. |
| `PyText.DecimalRoundTrip` | MathEquationSolver.py:126 | Reading the digits of `str(n)` back gives `n`. |
| `PyText.DecimalInjective` | MathEquationSolver.py:126 | Distinct entry numbers render differently. |
| `Names.BelowIrreflexive` | MathEquationSolver.py:168 | No name sorts before itself. |
| `Names.BelowTransitive` | MathEquationSolver.py:168 | The name order is transitive. |
| `Names.BelowTotal` | MathEquationSolver.py:168 | For two distinct names, one sorts before the other. |
| `Names.BelowAsymmetric` | MathEquationSolver.py:168 | Two names never each sort before the other. |
| `Names.LeastExists` | MathEquationSolver.py:168 | Every non-empty set of names has a smallest member. |
| `Names.Least` | MathEquationSolver.py:168 | Returns a member of the set that no other member sorts before. |
| `Names.SortedNames` | MathEquationSolver.py:168 | `sorted` of a set of names is strictly increasing, has the set's size and holds exactly the set's members. |
| `Names.SortedNamesUnique` | MathEquationSolver.py:168 | Any strictly increasing sequence with the same members as the set is `SortedNames` of it, so the order is fully determined. |
| `Formatting.FormatStepSolution` | MathEquationSolver.py:122-127 | The accumulating loop returns `FormatRoots(solutions)`: the header followed by one entry per root. |
| `Formatting.FormatNoRoots` | MathEquationSolver.py:124 | An empty root list gives exactly `"Solutions:\n"`. |
| `Formatting.EntriesFromSnoc` | MathEquationSolver.py:125-126 | Adding a root at the end adds its entry, numbered after all the others, at the end of the text. |
| `Formatting.EntriesInOrder` | MathEquationSolver.py:125-126 | The loop's text equals the front-to-back reading of `enumerate`: `x1 = r1` then `x2 = r2` and so on, each followed by five spaces. |
| `Formatting.EntriesPrefix` | MathEquationSolver.py:125-126 | The entries for the first `n` roots are a prefix of the entries for all of them. |
| `Formatting.RootAppearsAt` | MathEquationSolver.py:126 | The root at 0-based position `i` appears as entry `x{i+1}`. It comes right after the header and the entries of the roots before it. |
| `Systems.ParseOne` | MathEquationSolver.py:160-164 | One pass of the loop body strips the piece, rewrites `a=b` and parses it, giving `ParsePiece`: the unpacking error for two or more `=`, otherwise `sympify`'s result. |
| `Systems.ParseAll` | MathEquationSolver.py:156-166 | The parsing loop returns `ParsePieces`: the equations and the union of their free symbols, or the first failure. `ParseFailsIff` and `ParsedContents` say what that is. |
| `Systems.SolveSystem` | MathEquationSolver.py:152-184 | The split, strip, normalise and parse loop, the sort, the solve and the join return `SystemText(e, text)`. |
| `Systems.FailureStops` | MathEquationSolver.py:159-165 | Once a piece fails, the loop's result is that failure, whatever pieces follow. |
| `Systems.NormaliseNoEquals` | MathEquationSolver.py:161 | A stripped piece without `=` is passed on unchanged. |
| `Systems.NormaliseOneEquals` | MathEquationSolver.py:161-163 | A piece `left=right` with one `=` becomes `"(" + left + ") - (" + right + ")"`. It keeps the spaces around the `=`. |
| `Systems.NormaliseFailsIff` | MathEquationSolver.py:161-162 | Normalising fails exactly when the piece holds two or more `=`, and the failure is the unpacking error. |
| `Systems.ParseFailsIff` | MathEquationSolver.py:159-166 | The parsing loop fails exactly when some piece fails to normalise, to parse, or to give its free symbols. |
| `Systems.ParsedContents` | MathEquationSolver.py:159-166 | A successful loop holds one parsed equation per piece, in order, and each has its free symbols. Its variables are exactly the union of the equations' free-variable names. |
| `Systems.DoubleEqualsFails` | MathEquationSolver.py:161-184 | A piece with two or more `=` makes `solve_system` return a text starting with `"Error solving system: "`. |
| `Systems.FreeSymbolsFailureReported` | MathEquationSolver.py:164-184 | When the pieces before it all parse and give their free symbols, a piece that parses to something without free symbols (such as a list) makes `solve_system` return `"Error solving system: "` followed by that failure's message. |
| `Systems.SystemVariables` | MathEquationSolver.py:166-168 | The variables passed to `linsolve` are strictly increasing, with no duplicates. They are exactly the free-variable names of all the equations. |
| `Systems.ParsedSystemReported` | MathEquationSolver.py:168-169 | Once the pieces parse, the result depends only on `linsolve`'s answer for the equations and the sorted variables. |
| `Systems.SolverErrorReported` | MathEquationSolver.py:169 | A failing `linsolve` gives `"Error solving system: "` followed by its message. |
| `Systems.EmptySolutionSet` | MathEquationSolver.py:171-172 | An empty solution set gives exactly `"No solution found."`. |
| `Systems.SolutionShown` | MathEquationSolver.py:179-180 | The first solution appears as `var = value` pairs in variable order. There are as many pairs as the shorter of the two lists, each value is the rendered `evalf`, and the pairs are joined by five spaces with none after the last. |
| `Systems.PlaceholderExample` | MathEquationSolver.py:29 | The placeholder text `x + y = 5, x - y = 1` splits into `x + y = 5` and ` x - y = 1`. |
| `Window.BlankInput` | MathEquationSolver.py:86-90 | Blank input shows exactly `"Please enter an equation."` and plots nothing. Any two engines give the same response, so no parse, solve or plot call is made. |
| `Window.NonBlankIsParsed` | MathEquationSolver.py:92-120 | Input with a visible character is parsed in every mode, System mode included. A parse failure shows `"Error: "` followed by its message and plots nothing. |
| `Window.UnknownMode` | MathEquationSolver.py:114-115 | On parsed input, a drop-down text other than the four entries shows `"Invalid selection."` and plots nothing. |
| `Window.EngineFailureShown` | MathEquationSolver.py:96-120 | A failing `solve`, `diff` or `integrate` shows `"Error: "` followed by its message, and nothing is plotted. |
| `Window.PlotRaisedShown` | MathEquationSolver.py:96-120 | An exception other than `TypeError` raised while plotting is shown as `"Error: "` followed by its message, in place of the mode's result. The original expression was handed to `plot_graph`. |
| `Window.SingleModeShown` | MathEquationSolver.py:96-117 | Algebraic mode shows the formatted roots. Differentiation shows `"f'(x) = "` followed by the derivative. Integration shows the integral prefix, the integral and `" + C"`. |
| `Window.SystemModeShown` | MathEquationSolver.py:111-117 | System mode shows `solve_system` of the stripped text and never plots. |
| `Window.PlotsOriginalExpression` | MathEquationSolver.py:96-112 | `plot_graph` is called exactly in the three single-variable modes, once parsing and that mode's call succeed. It always gets the parsed original expression, never the derivative or integral. |
| `Window.PlotErrorOverwritten` | MathEquationSolver.py:99-142 | When plotting raises `TypeError`, two texts are written: first the plot error, then the result of the `try` block. The plot error is never what stays on screen. |
| `Window.SolverWindow.constructor` | MathEquationSolver.py:23-44 | A new window has the first drop-down entry selected and an empty input and output. Nothing has been plotted. |
| `Window.SolverWindow.SetText` | MathEquationSolver.py:89 | `setText` replaces the output text, logs it and changes nothing else. |
| `Window.SolverWindow.PlotGraph` | MathEquationSolver.py:129-150 | Clears the axes, then draws the curve or writes the plot error on a `TypeError`. Any other exception is handed back to the caller. |
| `Window.SolverWindow.TryBlock` | MathEquationSolver.py:92-116 | The `try` block gives the outcome and the plot call that `Try` specifies. It writes the output box only through `plot_graph`, and leaves it unchanged when `plot_graph` writes nothing. |
| `Window.SolverWindow.SolveEquation` | MathEquationSolver.py:84-120 | One press writes exactly `Respond`'s texts in order and leaves the last on screen. It logs `Respond`'s plot call and leaves the axes showing that plot's outcome. |

## Left out

- The Qt widgets, layout, window geometry and style sheet (`load_styles`, lines 9-82), and the start-up code (lines 186-190). They are modelled only as the fields `selected`, `entered` and `output` of `SolverWindow`.
- The plotting numerics (`linspace`, `lambdify`, axis styling, canvas drawing, lines 131-150). A plot is reduced to three outcomes: drawn, `TypeError`, or another exception.
- The algebra library itself (`sympify`, `solve`, `diff`, `integrate`, `linsolve`, `evalf`, `free_symbols`, `str` of results). Each is an opaque `Engine` field. Whether `sympify` accepts `=` or commas in the whole text is not modelled.
- The `"No unique solution."` branch (lines 176-177). The solution set is a sequence, and an empty one has already returned at line 171, so this branch cannot run.
- Symbols are identified by name. Two symbols with the same name but different assumptions count as one variable here.
- `linsolve` returns the solutions as a sequence, and "the first solution" is its first element. The library's set iteration order is not modelled.
- The unpacking failure uses the message of CPython 3.12 and earlier, `"too many values to unpack (expected 2)"`. Newer versions append `", got N"`.
- `evalf` is modelled as never failing.
