/**
 * The viruses of virus.py that decide on integers alone: each keeps the list
 * of computers it has hacked and, at a split, picks the top branch, the
 * bottom branch or stops.
 */
module Viruses {
  import opened Computers
  import opened Routes

  datatype BranchDecision = Top | Bottom | Stop

  /** The three integer-only virus behaviours. */
  datatype VirusKind = TopVirus | BottomVirus | LazyVirus

  /** Whether a branch starts with a computer, that is, with a series. */
  predicate StartsWithSeries(branch: Route) {
    branch.store.SeriesStore?
  }

  /**
   * When both branches start with a computer, the easier one to hack, or stop
   * on a tie; otherwise avoid the one branch that starts with a computer, and
   * go top when neither does.
   */
  function LazySelect(top: Route, bottom: Route): (d: BranchDecision)
    ensures StartsWithSeries(top) && StartsWithSeries(bottom) ==>
      var a := top.store.series.computer.hackingDifficulty;
      var b := bottom.store.series.computer.hackingDifficulty;
      (d == Top <==> a < b) && (d == Bottom <==> a > b) && (d == Stop <==> a == b)
    ensures StartsWithSeries(top) && !StartsWithSeries(bottom) ==> d == Bottom
    ensures !StartsWithSeries(top) ==> d == Top
  {
    var topRoute := StartsWithSeries(top);
    var botRoute := StartsWithSeries(bottom);
    if topRoute && botRoute then
      var topComp := top.store.series.computer;
      var botComp := bottom.store.series.computer;
      if topComp.hackingDifficulty < botComp.hackingDifficulty then Top
      else if topComp.hackingDifficulty > botComp.hackingDifficulty then Bottom
      else Stop
    else if topRoute then Bottom
    else Top
  }

  function Swap(d: BranchDecision): BranchDecision {
    match d
    case Top => Bottom
    case Bottom => Top
    case Stop => Stop
  }

  /** Between two series, exchanging the branches exchanges the decision. */
  lemma LazySwapSymmetric(top: Route, bottom: Route)
    requires StartsWithSeries(top) && StartsWithSeries(bottom)
    ensures LazySelect(bottom, top) == Swap(LazySelect(top, bottom))
  {
  }

  /** The lazy virus never steps onto the harder of two computers. */
  lemma LazyNeverHarder(top: Route, bottom: Route)
    requires StartsWithSeries(top) && StartsWithSeries(bottom)
    ensures LazySelect(top, bottom) == Top ==>
      top.store.series.computer.hackingDifficulty < bottom.store.series.computer.hackingDifficulty
    ensures LazySelect(top, bottom) == Bottom ==>
      bottom.store.series.computer.hackingDifficulty < top.store.series.computer.hackingDifficulty
  {
  }

  /** A virus: its behaviour and the computers it has hacked so far. */
  class Virus {
    const kind: VirusKind
    var computers: seq<Computer>

    constructor (kind: VirusKind)
      ensures this.kind == kind && computers == []
    {
      this.kind := kind;
      computers := [];
    }

    /** Records one more hacked computer at the end of the list. */
    method AddComputer(c: Computer)
      modifies this
      ensures computers == old(computers) + [c]
      ensures |computers| == |old(computers)| + 1
      ensures computers[..|old(computers)|] == old(computers) && computers[|computers| - 1] == c
    {
      computers := computers + [c];
    }

    /** The decision of this virus's kind at a split between `top` and `bottom`. */
    function SelectBranch(top: Route, bottom: Route): (d: BranchDecision)
      ensures kind == TopVirus ==> d == Top
      ensures kind == BottomVirus ==> d == Bottom
      ensures kind == LazyVirus ==> d == LazySelect(top, bottom)
    {
      match kind
      case TopVirus => Top
      case BottomVirus => Bottom
      case LazyVirus => LazySelect(top, bottom)
    }
  }
}
