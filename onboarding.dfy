/**
 * The three-page tutorial: the active page index, the dots that jump to a
 * page, Skip and Next, and the finish step that marks the tutorial as shown
 * and opens the inventory. What finishing does is recorded as a trace of
 * effects; the stored "tutorial shown" flag is a field.
 */
module Onboarding {
  import opened Common
  import Navigation

  const FIRST_PAGE := 1
  const LAST_PAGE := 3

  /** What finishing the tutorial does, in order. */
  datatype Effect = MarkTutorialShown | OpenAndPopUp(route: string)

  /** onFinish: store the flag, then open the inventory and drop the tutorial from the back stack. */
  const FINISH_EFFECTS: seq<Effect> := [MarkTutorialShown, OpenAndPopUp(Navigation.INVENTORY)]

  /** The page whose title and message are shown: pages 1 to 3 show themselves, any other index shows page 1. */
  function DisplayedPage(index: int): (page: int)
    ensures FIRST_PAGE <= page <= LAST_PAGE
    ensures FIRST_PAGE <= index <= LAST_PAGE ==> page == index
    ensures !(FIRST_PAGE <= index <= LAST_PAGE) ==> page == FIRST_PAGE
  {
    if index == 2 then 2 else if index == 3 then 3 else 1
  }

  /** Skip is offered on every page before the last. */
  predicate SkipVisible(index: int)
    ensures FIRST_PAGE <= index <= LAST_PAGE ==> (SkipVisible(index) <==> PressNext(index).Some?)
  {
    index < LAST_PAGE
  }

  /** What the Next button does: None when it finishes, else the page it moves to. */
  function PressNext(index: int): (next: Option<int>)
    ensures next.None? <==> index == LAST_PAGE
    ensures next.Some? ==> next.value == index + 1
  {
    if index == LAST_PAGE then None else Some(index + 1)
  }

  /** The page reached after `presses` presses of Next, or None once Next has finished the tutorial. */
  function AfterNexts(index: int, presses: nat): (page: Option<int>)
    ensures page.Some? ==> page.value == index + presses
    ensures page.None? ==> index + presses > LAST_PAGE
    decreases presses
  {
    if presses == 0 then Some(index)
    else match PressNext(index)
      case None => None
      case Some(next) => AfterNexts(next, presses - 1)
  }

  /**
   * From any page, Next walks through the remaining pages one by one and
   * the press after the last page finishes: the tutorial never finishes early
   * through Next and never loops.
   */
  lemma {:induction false} NextWalksToFinish(index: int, presses: nat)
    requires FIRST_PAGE <= index <= LAST_PAGE
    ensures presses <= LAST_PAGE - index ==> AfterNexts(index, presses) == Some(index + presses)
    ensures AfterNexts(index, LAST_PAGE - index + 1) == None
    decreases LAST_PAGE - index
  {
    if index < LAST_PAGE {
      if presses > 0 {
        NextWalksToFinish(index + 1, presses - 1);
      }
      NextWalksToFinish(index + 1, 0);
    }
  }

  /** After finishing, the next launch no longer starts in the tutorial. */
  lemma FinishedTutorialIsNotStart(isLoggedIn: bool)
    ensures Navigation.StartDestination(true, isLoggedIn) != Navigation.TUTORIAL
    ensures Navigation.StartDestination(true, isLoggedIn) == if isLoggedIn then Navigation.INVENTORY else Navigation.LOGIN
  {
    Navigation.StartDestinationSpec(true, isLoggedIn);
  }

  class OnboardingScreen {
    var activeMessageIndex: int
    /** The stored flag read at launch to pick the start destination. */
    var tutorialShown: bool
    /** Everything finishing has done, oldest first. */
    ghost var effects: seq<Effect>

    ghost predicate Valid()
      reads this`activeMessageIndex
    {
      FIRST_PAGE <= activeMessageIndex <= LAST_PAGE
    }

    /** The tutorial opens on page 1. */
    constructor (tutorialShown: bool)
      ensures Valid() && activeMessageIndex == FIRST_PAGE
      ensures this.tutorialShown == tutorialShown && effects == []
    {
      activeMessageIndex := FIRST_PAGE;
      this.tutorialShown := tutorialShown;
      effects := [];
    }

    /** A dot: one per page, each jumps to its page. */
    method OnDotClick(i: int)
      requires FIRST_PAGE <= i <= LAST_PAGE
      modifies this`activeMessageIndex
      ensures Valid() && activeMessageIndex == i
    {
      activeMessageIndex := i;
    }

    /** onFinish. */
    method Finish()
      modifies this`tutorialShown, this`effects
      ensures tutorialShown && effects == old(effects) + FINISH_EFFECTS
    {
      tutorialShown := true;
      effects := effects + [MarkTutorialShown];
      effects := effects + [OpenAndPopUp(Navigation.INVENTORY)];
    }

    /** Next ("Let's start" on the last page): finish on the last page, else move one page on. */
    method OnNext()
      requires Valid()
      modifies this
      ensures Valid()
      ensures PressNext(old(activeMessageIndex)).None? ==>
                activeMessageIndex == old(activeMessageIndex) && tutorialShown && effects == old(effects) + FINISH_EFFECTS
      ensures PressNext(old(activeMessageIndex)).Some? ==>
                activeMessageIndex == PressNext(old(activeMessageIndex)).value
                && tutorialShown == old(tutorialShown) && effects == old(effects)
    {
      if activeMessageIndex == LAST_PAGE {
        Finish();
      } else {
        activeMessageIndex := activeMessageIndex + 1;
      }
    }

    /** Skip, which is only on screen before the last page, finishes at once. */
    method OnSkip()
      requires Valid() && SkipVisible(activeMessageIndex)
      modifies this
      ensures Valid() && activeMessageIndex == old(activeMessageIndex)
      ensures tutorialShown && effects == old(effects) + FINISH_EFFECTS
    {
      Finish();
    }
  }
}
