/** The infinite-scroll auto-load budget of the planet list page: a scroll trigger loads the next
    page automatically at most `MAX_AUTO_LOADS` times, after which a manual "load more" button takes
    over; a new search or a reset restores the budget. */
module AutoLoad {

  const MAX_AUTO_LOADS: nat := 3

  /** An entry appended by a load: `{ id: planets.length + 1, name: 'Planet' }`. */
  datatype LoadedPlanet = LoadedPlanet(id: nat, name: string)

  /** The controller's state: the count of automatic loads done, whether a load is in flight, the
      planets loaded so far, and whether the API reported a further page. */
  datatype LoadState = LoadState(autoLoadCount: nat, pending: bool, planets: seq<LoadedPlanet>, hasMore: bool)

  /** `canAutoLoad`: the budget of automatic loads is not used up. */
  predicate CanAutoLoad(s: LoadState) {
    s.autoLoadCount < MAX_AUTO_LOADS
  }

  /** `shouldShowScrollTrigger`: more pages exist and the next one may be loaded automatically. */
  predicate ShouldShowScrollTrigger(s: LoadState) {
    s.hasMore && CanAutoLoad(s)
  }

  /** `shouldShowLoadButton`: more pages exist, the budget is used up and no load is in flight. */
  predicate ShouldShowLoadButton(s: LoadState) {
    s.hasMore && !CanAutoLoad(s) && !s.pending
  }

  /** The planet the next load appends after `planets`. */
  function NextPlanet(planets: seq<LoadedPlanet>): LoadedPlanet {
    LoadedPlanet(|planets| + 1, "Planet")
  }

  /** The state after one completed `loadMore(isAutoLoad)`: an automatic load with the budget used up
      changes nothing; any other load appends a planet, counts itself when automatic, and ends with
      no load pending. */
  function LoadMoreStep(s: LoadState, isAutoLoad: bool): LoadState {
    if isAutoLoad && s.autoLoadCount >= MAX_AUTO_LOADS then s
    else
      s.(planets := s.planets + [NextPlanet(s.planets)],
         autoLoadCount := if isAutoLoad then s.autoLoadCount + 1 else s.autoLoadCount,
         pending := false)
  }

  /** The state after a new search or a reset, as far as the budget is concerned. */
  function RestoreBudget(s: LoadState): LoadState {
    s.(autoLoadCount := 0)
  }

  /** The page-level controller, its fields the `ref` cells the page holds. */
  class Controller {
    var autoLoadCount: nat
    var pending: bool
    var planets: seq<LoadedPlanet>
    var hasMore: bool

    /** A controller with `autoLoadCount` automatic loads already counted and nothing loaded. */
    constructor (autoLoadCount: nat, hasMore: bool)
      ensures State() == LoadState(autoLoadCount, false, [], hasMore)
    {
      this.autoLoadCount := autoLoadCount;
      this.pending := false;
      this.planets := [];
      this.hasMore := hasMore;
    }

    function State(): LoadState
      reads this
    {
      LoadState(autoLoadCount, pending, planets, hasMore)
    }

    /** `loadMore(isAutoLoad)`: returns at once when an automatic load finds the budget used up;
        otherwise marks a load pending, appends the next planet, counts an automatic load, and clears
        the pending mark. */
    method LoadMore(isAutoLoad: bool := false)
      modifies this
      ensures State() == LoadMoreStep(old(State()), isAutoLoad)
    {
      if isAutoLoad && autoLoadCount >= MAX_AUTO_LOADS {
        return;
      }
      pending := true;
      planets := planets + [NextPlanet(planets)];
      if isAutoLoad {
        autoLoadCount := autoLoadCount + 1;
      }
      pending := false;
    }

    /** `handleSearch`: zeroes the count of automatic loads. */
    method HandleSearch()
      modifies this
      ensures State() == RestoreBudget(old(State()))
    {
      autoLoadCount := 0;
    }

    /** `handleReset`: zeroes the count of automatic loads. */
    method HandleReset()
      modifies this
      ensures State() == RestoreBudget(old(State()))
    {
      autoLoadCount := 0;
    }
  }

  /* ---------- one load ---------- */

  /** An automatic load with budget left appends exactly the next planet and uses one unit of the
      budget; with the budget used up it leaves count, planets and pending as they were. */
  lemma AutoLoadStep(s: LoadState)
    ensures CanAutoLoad(s) ==>
      LoadMoreStep(s, true).planets == s.planets + [NextPlanet(s.planets)] &&
      LoadMoreStep(s, true).autoLoadCount == s.autoLoadCount + 1 &&
      !LoadMoreStep(s, true).pending
    ensures !CanAutoLoad(s) ==> LoadMoreStep(s, true) == s
  {
  }

  /** A manual load appends the next planet whatever the budget, and never touches the count. */
  lemma ManualLoadStep(s: LoadState)
    ensures LoadMoreStep(s, false).planets == s.planets + [NextPlanet(s.planets)]
    ensures LoadMoreStep(s, false).autoLoadCount == s.autoLoadCount
    ensures !LoadMoreStep(s, false).pending
  {
  }

  /** Planet `i` (from 0) has id `i + 1`: ids are consecutive from 1. */
  predicate IdsConsecutive(planets: seq<LoadedPlanet>) {
    forall i :: 0 <= i < |planets| ==> planets[i].id == i + 1
  }

  /** A load keeps the planets before it, keeps the ids consecutive, never raises a count that is
      within the budget beyond it, and never leaves a load pending that was not pending before. */
  lemma LoadMoreStepInvariants(s: LoadState, isAutoLoad: bool)
    ensures var t := LoadMoreStep(s, isAutoLoad);
      s.planets <= t.planets &&
      (IdsConsecutive(s.planets) ==> IdsConsecutive(t.planets)) &&
      (s.autoLoadCount <= MAX_AUTO_LOADS ==> t.autoLoadCount <= MAX_AUTO_LOADS) &&
      (!s.pending ==> !t.pending) &&
      t.hasMore == s.hasMore
  {
  }

  /* ---------- sequences of loads ---------- */

  /** The state after the completed loads `calls`, in order, `true` marking an automatic one. */
  function Run(s: LoadState, calls: seq<bool>): LoadState {
    if calls == [] then s else LoadMoreStep(Run(s, calls[..|calls| - 1]), calls[|calls| - 1])
  }

  /** The number of automatic loads among `calls`. */
  function CountAutos(calls: seq<bool>): (n: nat)
    ensures n <= |calls|
  {
    if calls == [] then 0 else CountAutos(calls[..|calls| - 1]) + (if calls[|calls| - 1] then 1 else 0)
  }

  function Min(a: nat, b: nat): nat {
    if a <= b then a else b
  }

  /** The count after a run: an exhausted budget stays as it is; otherwise every automatic load counts
      until the budget is used up. The planets grow by one for each manual load and each automatic
      load that counted. */
  lemma {:induction false} RunCounts(s: LoadState, calls: seq<bool>)
    ensures var t := Run(s, calls);
      t.autoLoadCount ==
        (if s.autoLoadCount >= MAX_AUTO_LOADS then s.autoLoadCount
         else Min(MAX_AUTO_LOADS, s.autoLoadCount + CountAutos(calls))) &&
      |t.planets| == |s.planets| + (|calls| - CountAutos(calls)) + (t.autoLoadCount - s.autoLoadCount)
  {
    if calls != [] {
      RunCounts(s, calls[..|calls| - 1]);
    }
  }

  /** Starting within the budget, no sequence of loads takes the count beyond it. */
  lemma RunStaysWithinBudget(s: LoadState, calls: seq<bool>)
    requires s.autoLoadCount <= MAX_AUTO_LOADS
    ensures Run(s, calls).autoLoadCount <= MAX_AUTO_LOADS
  {
    RunCounts(s, calls);
  }

  /** A sequence of loads only appends, keeps ids consecutive, and leaves no load pending when none
      was pending at the start. */
  lemma {:induction false} RunInvariants(s: LoadState, calls: seq<bool>)
    ensures var t := Run(s, calls);
      s.planets <= t.planets &&
      (IdsConsecutive(s.planets) ==> IdsConsecutive(t.planets)) &&
      (!s.pending ==> !t.pending)
  {
    if calls != [] {
      var calls' := calls[..|calls| - 1];
      RunInvariants(s, calls');
      LoadMoreStepInvariants(Run(s, calls'), calls[|calls| - 1]);
    }
  }

  /** Manual loads never change the count, however many there are. */
  lemma ManualRunKeepsCount(s: LoadState, calls: seq<bool>)
    requires forall i :: 0 <= i < |calls| ==> !calls[i]
    ensures Run(s, calls).autoLoadCount == s.autoLoadCount
    ensures |Run(s, calls).planets| == |s.planets| + |calls|
  {
    ManualCallsCountNothing(calls);
    RunCounts(s, calls);
  }

  lemma {:induction false} ManualCallsCountNothing(calls: seq<bool>)
    requires forall i :: 0 <= i < |calls| ==> !calls[i]
    ensures CountAutos(calls) == 0
  {
    if calls != [] {
      ManualCallsCountNothing(calls[..|calls| - 1]);
    }
  }

  /* ---------- budget and visibility ---------- */

  /** After a search or a reset the page may load automatically again, and the next
      `MAX_AUTO_LOADS` automatic loads all go through. */
  lemma RestoreBudgetEnablesAutoLoad(s: LoadState)
    ensures CanAutoLoad(RestoreBudget(s))
    ensures Run(RestoreBudget(s), [true, true, true]).autoLoadCount == MAX_AUTO_LOADS
    ensures |Run(RestoreBudget(s), [true, true, true]).planets| == |s.planets| + MAX_AUTO_LOADS
  {
    RunCounts(RestoreBudget(s), [true, true, true]);
    assert [true, true, true][..2] == [true, true];
    assert [true, true][..1] == [true];
    assert [true][..0] == [];
  }

  /** The scroll trigger and the load button never show together; when more pages exist and no load
      is in flight, exactly one of them shows. */
  lemma VisibilityExclusive(s: LoadState)
    ensures !(ShouldShowScrollTrigger(s) && ShouldShowLoadButton(s))
    ensures s.hasMore && !s.pending ==> ShouldShowScrollTrigger(s) || ShouldShowLoadButton(s)
    ensures !s.hasMore ==> !ShouldShowScrollTrigger(s) && !ShouldShowLoadButton(s)
  {
  }

  /* ---------- the page test's scenarios ---------- */

  /** The full auto-load cycle: three automatic loads use up the budget, a fourth is refused, and a
      manual load still appends without counting. */
  method FullAutoLoadCycle() {
    var c := new Controller(0, true);
    assert CanAutoLoad(c.State());
    c.LoadMore(true);
    assert c.autoLoadCount == 1 && CanAutoLoad(c.State());
    c.LoadMore(true);
    assert c.autoLoadCount == 2 && CanAutoLoad(c.State());
    c.LoadMore(true);
    assert c.autoLoadCount == 3 && !CanAutoLoad(c.State());
    var before := |c.planets|;
    c.LoadMore(true);
    assert c.autoLoadCount == 3 && |c.planets| == before;
    c.LoadMore(false);
    assert c.autoLoadCount == 3 && |c.planets| == before + 1;
    assert !c.pending && c.planets[3] == LoadedPlanet(4, "Planet");
  }

  /** Manual loads from a fresh controller leave the count at 0. */
  method ManualLoadsDoNotCount() {
    var c := new Controller(0, true);
    c.LoadMore();
    assert c.autoLoadCount == 0;
    c.LoadMore(false);
    assert c.autoLoadCount == 0;
  }

  /** A search or a reset at the limit restores automatic loading. */
  method SearchAndResetRestoreBudget() {
    var c := new Controller(3, true);
    assert !CanAutoLoad(c.State());
    c.HandleSearch();
    assert c.autoLoadCount == 0 && CanAutoLoad(c.State());
    var d := new Controller(3, true);
    d.HandleReset();
    assert d.autoLoadCount == 0;
  }

  /** `canAutoLoad` is true below the limit and false at and above it. */
  method CanAutoLoadAtEachCount() {
    var c := new Controller(0, true);
    assert CanAutoLoad(c.State());
    c := new Controller(1, true);
    assert CanAutoLoad(c.State());
    c := new Controller(2, true);
    assert CanAutoLoad(c.State());
    c := new Controller(3, true);
    assert !CanAutoLoad(c.State());
    c := new Controller(4, true);
    assert !CanAutoLoad(c.State());
    c.LoadMore(true);
    assert c.autoLoadCount == 4 && c.planets == [];
  }

  /** The button shows once the budget is used up, and hides while a load is in flight. */
  method VisibilityAtTheLimit() {
    var s := LoadState(3, false, [], true);
    assert !ShouldShowScrollTrigger(s) && ShouldShowLoadButton(s);
    assert !ShouldShowLoadButton(s.(pending := true));
    assert ShouldShowScrollTrigger(s.(autoLoadCount := 0)) && !ShouldShowLoadButton(s.(autoLoadCount := 0));
  }
}
