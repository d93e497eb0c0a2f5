/**
 * The page-load dispatcher and `startSearchStep`, around the one value the
 * script persists: the "search step done" flag kept in local storage.
 */
module SearchStep {

  /** The pages the dispatcher recognises by the document body's id. */
  datatype Page =
    | ChooseTestType | DrivingLicenceNumber | TestPreferences | TestCentreSearch
    | TestCentre | AvailableTime | YourDetails | OtherPage

  function PageOf(bodyId: string): (p: Page)
    ensures p == ChooseTestType <==> bodyId == "page-choose-test-type"
    ensures p == TestCentreSearch <==> bodyId == "page-test-centre-search"
  {
    if bodyId == "page-choose-test-type" then ChooseTestType
    else if bodyId == "page-driving-licence-number" then DrivingLicenceNumber
    else if bodyId == "page-test-preferences" then TestPreferences
    else if bodyId == "page-test-centre-search" then TestCentreSearch
    else if bodyId == "page-test-centre" then TestCentre
    else if bodyId == "page-available-time" then AvailableTime
    else if bodyId == "page-your-details" then YourDetails
    else OtherPage
  }

  /**
   * What the search step does: only click the preferred centre (flag set);
   * give up because the postcode input never appeared; type the postcode and
   * find no submit button; or type it and click submit.
   */
  datatype SearchAction = ClickCentreOnly | InputMissing | SubmitMissing | SubmitSearch

  /** The routine a page load runs. */
  datatype Routine =
    | SelectCarTest | FillLicence | FillDateOnlyPage | Search(action: SearchAction)
    | PickDate | ScanSlots | FillDetails | NoRoutine

  /** What a load finds on the page, as far as the dispatcher and the search step look. */
  datatype PageView = PageView(bodyId: string, searchInputFound: bool, submitFound: bool, hasDateLinks: bool)

  datatype LoadResult = LoadResult(routine: Routine, stepDone: bool)

  /** `startSearchStep` as a function of the flag and of what the page holds. */
  function SearchStepResult(stepDone: bool, inputFound: bool, submitFound: bool): (r: LoadResult)
    ensures stepDone ==> r == LoadResult(Search(ClickCentreOnly), true)
    ensures !stepDone ==> r.routine != Search(ClickCentreOnly)
    ensures !stepDone ==> (r.stepDone <==> r.routine == Search(SubmitSearch))
    ensures !stepDone ==> (r.routine == Search(SubmitSearch) <==> inputFound && submitFound)
  {
    if stepDone then LoadResult(Search(ClickCentreOnly), true)
    else if !inputFound then LoadResult(Search(InputMissing), false)
    else if !submitFound then LoadResult(Search(SubmitMissing), false)
    else LoadResult(Search(SubmitSearch), true)
  }

  /** One run of the `load` handler: the routine it dispatches to and the flag it leaves. */
  function LoadStep(stepDone: bool, view: PageView): (r: LoadResult)
    ensures PageOf(view.bodyId) == ChooseTestType ==> r == LoadResult(SelectCarTest, false)
    ensures PageOf(view.bodyId) == TestCentreSearch ==>
      r == SearchStepResult(stepDone, view.searchInputFound, view.submitFound)
    ensures PageOf(view.bodyId) != ChooseTestType && PageOf(view.bodyId) != TestCentreSearch ==>
      r.stepDone == stepDone && !r.routine.Search?
  {
    var flag := if PageOf(view.bodyId) == ChooseTestType then false else stepDone;
    match PageOf(view.bodyId)
    case ChooseTestType => LoadResult(SelectCarTest, flag)
    case DrivingLicenceNumber => LoadResult(FillLicence, flag)
    case TestPreferences => LoadResult(FillDateOnlyPage, flag)
    case TestCentreSearch => SearchStepResult(flag, view.searchInputFound, view.submitFound)
    case TestCentre => LoadResult(PickDate, flag)
    case AvailableTime => LoadResult(if view.hasDateLinks then PickDate else ScanSlots, flag)
    case YourDetails => LoadResult(FillDetails, flag)
    case OtherPage => LoadResult(NoRoutine, flag)
  }

  /** The routines run by a sequence of page loads that starts with the given flag. */
  function Routines(stepDone: bool, views: seq<PageView>): (rs: seq<Routine>)
    decreases |views|
    ensures |rs| == |views|
  {
    if views == [] then []
    else
      var r := LoadStep(stepDone, views[0]);
      [r.routine] + Routines(r.stepDone, views[1..])
  }

  /** The flag left after a sequence of page loads. */
  function FinalFlag(stepDone: bool, views: seq<PageView>): bool
    decreases |views|
  {
    if views == [] then stepDone
    else FinalFlag(LoadStep(stepDone, views[0]).stepDone, views[1..])
  }

  function CountSubmits(rs: seq<Routine>): nat {
    if rs == [] then 0
    else (if rs[0] == Search(SubmitSearch) then 1 else 0) + CountSubmits(rs[1..])
  }

  predicate NoRestart(views: seq<PageView>) {
    forall k | 0 <= k < |views| :: PageOf(views[k].bodyId) != ChooseTestType
  }

  /**
   * What the flag is for: between two visits of the choose-test-type page
   * the postcode search is submitted at most once, never once the flag is
   * set, and the flag is set afterwards exactly when it was set before or a
   * submit happened.
   */
  lemma {:induction false} AtMostOneSubmitPerSession(stepDone: bool, views: seq<PageView>)
    requires NoRestart(views)
    decreases |views|
    ensures CountSubmits(Routines(stepDone, views)) <= if stepDone then 0 else 1
    ensures FinalFlag(stepDone, views) <==> stepDone || CountSubmits(Routines(stepDone, views)) > 0
  {
    if views != [] {
      var r := LoadStep(stepDone, views[0]);
      assert NoRestart(views[1..]) by {
        forall k | 0 <= k < |views[1..]| ensures PageOf(views[1..][k].bodyId) != ChooseTestType {
          assert views[1..][k] == views[k + 1];
        }
      }
      AtMostOneSubmitPerSession(r.stepDone, views[1..]);
      var rs := Routines(stepDone, views);
      assert rs[1..] == Routines(r.stepDone, views[1..]);
    }
  }

  /** Loading the choose-test-type page starts a new session, whatever the flag was. */
  lemma {:induction false} RestartClearsFlag(stepDone: bool, first: PageView, views: seq<PageView>)
    requires PageOf(first.bodyId) == ChooseTestType && NoRestart(views)
    ensures CountSubmits(Routines(stepDone, [first] + views)) <= 1
  {
    var all := [first] + views;
    assert all[1..] == views;
    AtMostOneSubmitPerSession(false, views);
  }

  /** The browser's local storage, reduced to the one flag the script keeps there. */
  class ScriptStorage {
    var stepDone: bool

    constructor (stepDone: bool)
      ensures this.stepDone == stepDone
    {
      this.stepDone := stepDone;
    }

    /** `startSearchStep`: the flag decides, then the input and the submit button. */
    method StartSearchStep(inputFound: bool, submitFound: bool) returns (action: SearchAction)
      modifies this
      ensures LoadResult(Search(action), stepDone) == SearchStepResult(old(stepDone), inputFound, submitFound)
    {
      if stepDone {
        action := ClickCentreOnly;
        return;
      }
      if !inputFound {
        action := InputMissing;
        return;
      }
      if submitFound {
        action := SubmitSearch;
        stepDone := true;
      } else {
        action := SubmitMissing;
      }
    }

    /** The `load` handler: clear the flag on the first page, then dispatch on the page. */
    method OnLoad(view: PageView) returns (routine: Routine)
      modifies this
      ensures LoadResult(routine, stepDone) == LoadStep(old(stepDone), view)
    {
      var step := PageOf(view.bodyId);
      if step == ChooseTestType {
        stepDone := false;
      }
      if step == ChooseTestType {
        routine := SelectCarTest;
      } else if step == DrivingLicenceNumber {
        routine := FillLicence;
      } else if step == TestPreferences {
        routine := FillDateOnlyPage;
      } else if step == TestCentreSearch {
        var action := StartSearchStep(view.searchInputFound, view.submitFound);
        routine := Search(action);
      } else if step == TestCentre {
        routine := PickDate;
      } else if step == AvailableTime {
        routine := if view.hasDateLinks then PickDate else ScanSlots;
      } else if step == YourDetails {
        routine := FillDetails;
      } else {
        routine := NoRoutine;
      }
    }
  }
}
