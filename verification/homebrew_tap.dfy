/**
  The run of the tap generator over the `tools/` directory: every tool
  directory with a `package.json` is rendered and its formula written to
  `<tap>/Formula/<binary>.rb`. A package whose class name cannot be formed
  makes the generator throw, which ends the run; the files written before
  it stay written.
*/
module HomebrewTap {
  import opened Results
  import opened Strings
  import opened HomebrewFormula

  /** One entry of `tools/`: its parsed `package.json`, if it has one. */
  datatype ToolDir = ToolDir(name: string, pkg: Option<Package>)

  datatype FormulaFile = FormulaFile(path: string, content: string)

  /** The files written and whether the run ended by throwing. */
  datatype TapRun = TapRun(written: seq<FormulaFile>, crashed: bool)

  /** `join(tapDir, "Formula", `${binary}.rb`)` */
  function FormulaPath(tapDir: string, binary: string): string {
    tapDir + "/Formula/" + binary + ".rb"
  }

  /** What the loop body does with one directory. */
  function OutcomeOf(dir: ToolDir, digests: map<string, string>): (r: FormulaOutcome)
    ensures dir.pkg.None? ==> r.Skipped?
  {
    if dir.pkg.None? then Skipped else RenderFormula(dir.pkg.value, digests)
  }

  function FileFor(tapDir: string, binary: string, lines: seq<string>): FormulaFile {
    FormulaFile(FormulaPath(tapDir, binary), Join(lines, "\n"))
  }

  /** The outcome of each directory, in listing order. */
  function Outcomes(dirs: seq<ToolDir>, digests: map<string, string>): (r: seq<FormulaOutcome>)
    ensures |r| == |dirs| && forall i :: 0 <= i < |dirs| ==> r[i] == OutcomeOf(dirs[i], digests)
    decreases |dirs|
  {
    if |dirs| == 0 then [] else [OutcomeOf(dirs[0], digests)] + Outcomes(dirs[1..], digests)
  }

  /** The loop's writes, given each directory's outcome: a throw ends it. */
  function WriteAll(tapDir: string, outs: seq<FormulaOutcome>): (r: TapRun)
    ensures |r.written| <= |outs|
    decreases |outs|
  {
    if |outs| == 0 then TapRun([], false)
    else
      match outs[0]
      case Crashed => TapRun([], true)
      case Skipped => WriteAll(tapDir, outs[1..])
      case Rendered(binary, lines) =>
        var rest := WriteAll(tapDir, outs[1..]);
        TapRun([FileFor(tapDir, binary, lines)] + rest.written, rest.crashed)
  }

  /** The generator's loop over the tool directories, in listing order. */
  function UpdateTap(tapDir: string, dirs: seq<ToolDir>, digests: map<string, string>): TapRun {
    WriteAll(tapDir, Outcomes(dirs, digests))
  }

  /** The run throws exactly when some directory's outcome is a throw. */
  lemma {:induction false} WriteAllCrashIff(tapDir: string, outs: seq<FormulaOutcome>)
    ensures WriteAll(tapDir, outs).crashed <==> Crashed in outs
    decreases |outs|
  {
    if |outs| > 0 {
      WriteAllCrashIff(tapDir, outs[1..]);
      assert outs == [outs[0]] + outs[1..];
    }
  }

  /** Every written file is the rendering of some directory's outcome. */
  lemma {:induction false} WrittenAreRendered(tapDir: string, outs: seq<FormulaOutcome>, k: nat)
    requires k < |WriteAll(tapDir, outs).written|
    ensures exists i :: 0 <= i < |outs| && outs[i].Rendered?
              && WriteAll(tapDir, outs).written[k] == FileFor(tapDir, outs[i].binary, outs[i].lines)
    decreases |outs|
  {
    var rest := WriteAll(tapDir, outs[1..]);
    match outs[0]
    case Skipped =>
      WrittenAreRendered(tapDir, outs[1..], k);
      var i :| 0 <= i < |outs[1..]| && outs[1..][i].Rendered?
               && rest.written[k] == FileFor(tapDir, outs[1..][i].binary, outs[1..][i].lines);
      assert outs[1..][i] == outs[i + 1];
    case Rendered(binary, lines) =>
      if k == 0 {
        assert outs[0].Rendered?;
      } else {
        WrittenAreRendered(tapDir, outs[1..], k - 1);
        var i :| 0 <= i < |outs[1..]| && outs[1..][i].Rendered?
                 && rest.written[k - 1] == FileFor(tapDir, outs[1..][i].binary, outs[1..][i].lines);
        assert outs[1..][i] == outs[i + 1];
      }
  }

  /** A run that does not throw writes a formula for every rendered outcome. */
  lemma {:induction false} RenderedAreWritten(tapDir: string, outs: seq<FormulaOutcome>, i: nat)
    requires i < |outs| && outs[i].Rendered?
    requires !WriteAll(tapDir, outs).crashed
    ensures FileFor(tapDir, outs[i].binary, outs[i].lines) in WriteAll(tapDir, outs).written
    decreases |outs|
  {
    if i > 0 {
      assert outs[1..][i - 1] == outs[i];
      match outs[0]
      case Skipped =>
        RenderedAreWritten(tapDir, outs[1..], i - 1);
      case Rendered(b, ls) =>
        RenderedAreWritten(tapDir, outs[1..], i - 1);
    }
  }

  /** The tap run throws exactly when some directory holds an eligible
      package whose binary name yields no class name. */
  lemma TapCrashIff(tapDir: string, dirs: seq<ToolDir>, digests: map<string, string>)
    ensures UpdateTap(tapDir, dirs, digests).crashed
        <==> exists i :: 0 <= i < |dirs| && dirs[i].pkg.Some? && Eligible(dirs[i].pkg.value)
                        && ToPascalCase(ToolboxOf(dirs[i].pkg.value).binary.value).None?
  {
    var outs := Outcomes(dirs, digests);
    WriteAllCrashIff(tapDir, outs);
    if Crashed in outs {
      var i :| 0 <= i < |outs| && outs[i] == Crashed;
      assert OutcomeOf(dirs[i], digests).Crashed?;
    }
  }
}
