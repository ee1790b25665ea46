/**
 * The route algebra of route.py: a route is an optional store that is either
 * a split (top branch, bottom branch, then a following route) or a series
 * (one computer, then a following route). Every operation builds a new value;
 * none changes its receiver, which value types make automatic here.
 */
module Routes {
  import opened Computers

  datatype Route = Route(store: RouteStore)
  {
    /** A new route: `c` in series before everything of this route. */
    function AddComputerBefore(c: Computer): (r: Route)
      ensures r.store.SeriesStore? && r.store.series.computer == c
      ensures r.store.series.following == this
    {
      Route(SeriesStore(RouteSeries(c, this)))
    }

    /** A new route: an empty split before everything of this route. */
    function AddEmptyBranchBefore(): (r: Route)
      ensures r.store.SplitStore? && r.store.split.top == EmptyRoute() && r.store.split.bottom == EmptyRoute()
      ensures r.store.split.following == this
    {
      Route(SplitStore(RouteSplit(EmptyRoute(), EmptyRoute(), this)))
    }
  }

  datatype RouteStore =
    | NoStore
    | SplitStore(split: RouteSplit)
    | SeriesStore(series: RouteSeries)

  /** Two branches that join again before `following`. */
  datatype RouteSplit = RouteSplit(top: Route, bottom: Route, following: Route)
  {
    /** Drops the branch, leaving what follows it. */
    function RemoveBranch(): (r: RouteStore)
      ensures Route(r) == following
    {
      following.store
    }
  }

  /** One computer followed by the rest of the route. */
  datatype RouteSeries = RouteSeries(computer: Computer, following: Route)
  {
    /** Drops the first computer, leaving what follows it. */
    function RemoveComputer(): (r: RouteStore)
      ensures Route(r) == following
    {
      following.store
    }

    /** A new series headed by `c` whose rest is this series. */
    function AddComputerBefore(c: Computer): (r: RouteStore)
      ensures r.SeriesStore? && r.series.computer == c
      ensures r.series.following == Route(SeriesStore(this))
      ensures r.series.RemoveComputer() == SeriesStore(this)
    {
      var rest := Route(SeriesStore(RouteSeries(computer, following)));
      SeriesStore(RouteSeries(c, rest))
    }

    /** A new series keeping this computer first, then `c`, then what followed. */
    function AddComputerAfter(c: Computer): (r: RouteStore)
      ensures r.SeriesStore? && r.series.computer == computer
      ensures r.series.following.store == SeriesStore(RouteSeries(c, following))
    {
      var rest := Route(SeriesStore(RouteSeries(c, following)));
      SeriesStore(RouteSeries(computer, rest))
    }

    /** An empty split whose following route is this series. */
    function AddEmptyBranchBefore(): (r: RouteStore)
      ensures r.SplitStore? && r.split.top == EmptyRoute() && r.split.bottom == EmptyRoute()
      ensures r.split.following == Route(SeriesStore(this))
      ensures r.split.RemoveBranch() == SeriesStore(this)
    {
      SplitStore(RouteSplit(Route(NoStore), Route(NoStore), Route(SeriesStore(this))))
    }

    /** This computer, then an empty split, then what followed. */
    function AddEmptyBranchAfter(): (r: RouteStore)
      ensures r.SeriesStore? && r.series.computer == computer
      ensures var next := r.series.following.store;
        && next.SplitStore? && next.split.top == EmptyRoute() && next.split.bottom == EmptyRoute()
        && next.split.following == following
    {
      var branch := RouteSplit(Route(NoStore), Route(NoStore), following);
      SeriesStore(RouteSeries(computer, Route(SplitStore(branch))))
    }
  }

  /** The route with no store. */
  function EmptyRoute(): Route {
    Route(NoStore)
  }

  /**
   * The computers met along the spine of a route: each series contributes its
   * computer, a split contributes nothing of its branches, and both continue
   * with their following route.
   */
  function Spine(route: Route): seq<Computer>
  {
    match route.store
    case NoStore => []
    case SplitStore(split) => Spine(split.following)
    case SeriesStore(series) => [series.computer] + Spine(series.following)
  }

  /** The number of splits along the spine of a route. */
  function Splits(route: Route): nat
  {
    match route.store
    case NoStore => 0
    case SplitStore(split) => 1 + Splits(split.following)
    case SeriesStore(series) => Splits(series.following)
  }

  /** Removing the computer just added before a series gives the series back. */
  lemma AddBeforeThenRemove(s: RouteSeries, c: Computer)
    ensures s.AddComputerBefore(c).series.RemoveComputer() == SeriesStore(s)
  {
  }

  /** Removing the empty branch just added before a series gives the series back. */
  lemma AddBranchThenRemove(s: RouteSeries)
    ensures s.AddEmptyBranchBefore().split.RemoveBranch() == SeriesStore(s)
  {
  }

  /** Adding a computer before a route puts it at the head of the spine. */
  lemma AddComputerBeforeSpine(route: Route, c: Computer)
    ensures Spine(route.AddComputerBefore(c)) == [c] + Spine(route)
    ensures Splits(route.AddComputerBefore(c)) == Splits(route)
  {
  }

  /** Adding before a series puts the new computer first and shifts the rest by one. */
  lemma SeriesAddBeforeSpine(s: RouteSeries, c: Computer)
    ensures Spine(Route(s.AddComputerBefore(c))) == [c] + Spine(Route(SeriesStore(s)))
  {
  }

  /** Adding after a series' computer puts the new one second on the spine. */
  lemma SeriesAddAfterSpine(s: RouteSeries, c: Computer)
    ensures Spine(Route(s.AddComputerAfter(c))) == [s.computer, c] + Spine(s.following)
    ensures Splits(Route(s.AddComputerAfter(c))) == Splits(Route(SeriesStore(s)))
  {
  }

  /** An empty branch leaves the spine's computers alone and adds one split. */
  lemma AddEmptyBranchSpine(route: Route)
    ensures Spine(route.AddEmptyBranchBefore()) == Spine(route)
    ensures Splits(route.AddEmptyBranchBefore()) == Splits(route) + 1
  {
  }

  /** The same for an empty branch added before or after a series' computer. */
  lemma SeriesEmptyBranchSpine(s: RouteSeries)
    ensures Spine(Route(s.AddEmptyBranchBefore())) == Spine(Route(SeriesStore(s)))
    ensures Spine(Route(s.AddEmptyBranchAfter())) == Spine(Route(SeriesStore(s)))
    ensures Splits(Route(s.AddEmptyBranchBefore())) == Splits(Route(SeriesStore(s))) + 1
    ensures Splits(Route(s.AddEmptyBranchAfter())) == Splits(Route(SeriesStore(s))) + 1
  {
  }
}
