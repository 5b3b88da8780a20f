/** `format_step_solution`: the list of roots shown in Algebraic mode. */
module Formatting {
  import opened PyText

  const SolutionsHeader := "Solutions:\n"

  /** What follows every entry, the last one included. */
  const EntryGap := "     "

  /** The entry for the root at 0-based position `i`, numbered from 1. */
  function RootEntry(i: nat, root: string): string {
    "x" + Decimal(i + 1) + " = " + root + EntryGap
  }

  /** The entries of `roots`, as the loop appends them: the last one last. */
  function Entries(roots: seq<string>): string {
    if roots == [] then ""
    else Entries(roots[..|roots| - 1]) + RootEntry(|roots| - 1, roots[|roots| - 1])
  }

  /** The whole display text for a list of roots. */
  function FormatRoots(roots: seq<string>): string {
    SolutionsHeader + Entries(roots)
  }

  /** `format_step_solution(solutions)`. */
  method FormatStepSolution(solutions: seq<string>) returns (formatted: string)
    ensures formatted == FormatRoots(solutions)
  {
    formatted := SolutionsHeader;
    for i := 0 to |solutions|
      invariant formatted == SolutionsHeader + Entries(solutions[..i])
    {
      assert solutions[..i + 1][..i] == solutions[..i];
      formatted := formatted + RootEntry(i, solutions[i]);
    }
    assert solutions[..|solutions|] == solutions;
  }

  /** No roots: the header alone. */
  lemma FormatNoRoots()
    ensures FormatRoots([]) == "Solutions:\n"
  {
  }

  /** The entries numbered from `k`, the first root first: the reading of
      `enumerate` from the front, independent of how the loop appends. */
  function EntriesFrom(roots: seq<string>, k: nat): string {
    if roots == [] then "" else RootEntry(k, roots[0]) + EntriesFrom(roots[1..], k + 1)
  }

  lemma {:induction false} EntriesFromSnoc(roots: seq<string>, root: string, k: nat)
    ensures EntriesFrom(roots + [root], k) == EntriesFrom(roots, k) + RootEntry(k + |roots|, root)
  {
    if roots != [] {
      var longer, tail := roots + [root], roots[1..];
      var first, last := RootEntry(k, roots[0]), RootEntry(k + |roots|, root);
      assert longer[0] == roots[0] && longer[1..] == tail + [root];
      assert k + 1 + |tail| == k + |roots|;
      EntriesFromSnoc(tail, root, k + 1);
      calc {
        EntriesFrom(longer, k);
        first + EntriesFrom(tail + [root], k + 1);
        first + (EntriesFrom(tail, k + 1) + last);
        (first + EntriesFrom(tail, k + 1)) + last;
        EntriesFrom(roots, k) + last;
      }
    }
  }

  /** The loop builds exactly "x1 = r1     x2 = r2     ..." in input order. */
  lemma {:induction false} EntriesInOrder(roots: seq<string>)
    ensures Entries(roots) == EntriesFrom(roots, 0)
  {
    if roots != [] {
      var init := roots[..|roots| - 1];
      EntriesInOrder(init);
      EntriesFromSnoc(init, roots[|roots| - 1], 0);
      assert init + [roots[|roots| - 1]] == roots;
    }
  }

  /** The entries of a prefix of the roots begin the entries of all of them. */
  lemma {:induction false} EntriesPrefix(roots: seq<string>, n: nat)
    requires n <= |roots|
    ensures |Entries(roots[..n])| <= |Entries(roots)|
    ensures Entries(roots)[..|Entries(roots[..n])|] == Entries(roots[..n])
    decreases |roots|
  {
    if n < |roots| {
      var init := roots[..|roots| - 1];
      assert init[..n] == roots[..n];
      EntriesPrefix(init, n);
    } else {
      assert roots[..n] == roots;
    }
  }

  /** The root at position `i` appears, as entry number `i + 1`, right after
      the entries of the roots before it. */
  lemma RootAppearsAt(roots: seq<string>, i: nat)
    requires i < |roots|
    ensures var text, e := FormatRoots(roots), RootEntry(i, roots[i]);
      var at := |SolutionsHeader| + |Entries(roots[..i])|;
      at + |e| <= |text| && text[at..at + |e|] == e
  {
    var e := RootEntry(i, roots[i]);
    var upTo := roots[..i + 1];
    assert upTo[..i] == roots[..i];
    assert Entries(upTo) == Entries(roots[..i]) + e;
    EntriesPrefix(roots, i + 1);
    var all := Entries(roots);
    var before := Entries(roots[..i]);
    assert all[..|before| + |e|] == before + e;
    assert all[|before|..|before| + |e|] == e;
    assert FormatRoots(roots)[|SolutionsHeader| + |before|..|SolutionsHeader| + |before| + |e|]
      == all[|before|..|before| + |e|];
  }
}
