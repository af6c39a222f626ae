/**
 * The notice presenter: a FIFO queue of notices waiting to be shown and at
 * most one notice on screen. Rendering is abstract: `Present` only records
 * which notice was handed to the renderer and whether the rendering
 * installed a dismiss handler (an in-app banner does; a system
 * notification does not). Calling the dismiss handler is modelled as
 * calling `Dismiss`.
 */
module NoticePresenting {
  import opened Wrappers
  import opened Notices

  class DefaultNoticePresenter {
    /** Notices waiting for presentation, oldest first. */
    var notices: seq<Notice>
    /** The notice currently on screen. */
    var noticeOnScreen: Option<Notice>
    /** Whether a dismiss handler for the on-screen notice is installed. */
    var dismissNoticeOnScreen: bool
    /** Every notice handed to the renderer, in order. */
    ghost var presented: seq<Notice>

    /**
     * No two queued notices are equal, the on-screen notice is not also
     * queued, and nothing waits while the screen is free.
     */
    ghost predicate Valid()
      reads this
    {
      && NoDuplicates(notices)
      && (noticeOnScreen.Some? ==> !Contains(notices, noticeOnScreen.value))
      && (noticeOnScreen.None? ==> notices == [] && !dismissNoticeOnScreen)
    }

    /** `noticeOnScreen == notice` (a nil screen equals no notice). */
    predicate OnScreen(notice: Notice)
      reads this
    {
      noticeOnScreen.Some? && Same(noticeOnScreen.value, notice)
    }

    /** The on-screen notice followed by the queue: the order of presentation. */
    ghost function Lineup(): seq<Notice>
      reads this
    {
      (if noticeOnScreen.Some? then [noticeOnScreen.value] else []) + notices
    }

    constructor ()
      ensures Valid()
      ensures notices == [] && noticeOnScreen == None && !dismissNoticeOnScreen && presented == []
    {
      notices := [];
      noticeOnScreen := None;
      dismissNoticeOnScreen := false;
      presented := [];
    }

    /** Enqueues `notice` for display, unless an equal one is on screen or queued. */
    method Enqueue(notice: Notice, inApp: bool)
      requires Valid()
      modifies this
      ensures Valid()
      ensures noticeOnScreen.Some?
      ensures old(OnScreen(notice) || Contains(notices, notice)) ==>
        && notices == old(notices) && noticeOnScreen == old(noticeOnScreen)
        && dismissNoticeOnScreen == old(dismissNoticeOnScreen) && presented == old(presented)
      ensures !old(OnScreen(notice) || Contains(notices, notice)) ==>
        && Lineup() == old(Lineup()) + [notice]
        && (old(noticeOnScreen).None? ==>
              noticeOnScreen == Some(notice) && notices == []
              && presented == old(presented) + [notice] && dismissNoticeOnScreen == inApp)
        && (old(noticeOnScreen).Some? ==>
              noticeOnScreen == old(noticeOnScreen) && notices == old(notices) + [notice]
              && presented == old(presented) && dismissNoticeOnScreen == old(dismissNoticeOnScreen))
    {
      if OnScreen(notice) || Contains(notices, notice) {
        return;
      }
      notices := notices + [notice];
      PresentNextNoticeIfPossible(inApp);
    }

    /** Removes every queued notice equal to `notice`, and dismisses it if it is on screen. */
    method Cancel(notice: Notice, inApp: bool)
      requires Valid()
      modifies this
      ensures Valid()
      ensures var rest := Without(old(notices), notice);
        if old(OnScreen(notice) && dismissNoticeOnScreen) then
          && (rest == [] ==> noticeOnScreen == None && notices == [] && presented == old(presented))
          && (rest != [] ==> noticeOnScreen == Some(rest[0]) && notices == rest[1..]
                              && presented == old(presented) + [rest[0]] && dismissNoticeOnScreen == inApp)
        else
          && noticeOnScreen == old(noticeOnScreen) && notices == rest
          && dismissNoticeOnScreen == old(dismissNoticeOnScreen) && presented == old(presented)
    {
      WithoutKeepsNoDuplicates(notices, notice);
      if noticeOnScreen.Some? {
        WithoutContainsOnlyQueued(notices, notice, noticeOnScreen.value);
      }
      notices := Without(notices, notice);
      if OnScreen(notice) && dismissNoticeOnScreen {
        Dismiss(inApp);
      }
    }

    /** Moves the oldest queued notice on screen, if the screen is free. */
    method PresentNextNoticeIfPossible(inApp: bool)
      modifies this
      ensures old(noticeOnScreen.Some? || notices == []) ==>
        && notices == old(notices) && noticeOnScreen == old(noticeOnScreen)
        && dismissNoticeOnScreen == old(dismissNoticeOnScreen) && presented == old(presented)
      ensures old(noticeOnScreen.None? && notices != []) ==>
        && noticeOnScreen == Some(old(notices)[0]) && notices == old(notices)[1..]
        && presented == old(presented) + [old(notices)[0]] && dismissNoticeOnScreen == inApp
    {
      if noticeOnScreen.Some? || notices == [] {
        return;
      }
      var next := notices[0];
      notices := notices[1..];
      Present(next, inApp);
      noticeOnScreen := Some(next);
    }

    /** The rendering step, abstract: records the notice and whether a dismiss handler was installed. */
    method Present(notice: Notice, inApp: bool)
      modifies this
      ensures presented == old(presented) + [notice] && dismissNoticeOnScreen == inApp
      ensures notices == old(notices) && noticeOnScreen == old(noticeOnScreen)
    {
      presented := presented + [notice];
      dismissNoticeOnScreen := inApp;
    }

    /** Clears the screen and the dismiss handler, then presents the next queued notice. */
    method Dismiss(inApp: bool)
      requires Valid()
      modifies this
      ensures Valid()
      ensures old(notices) == [] ==>
        noticeOnScreen == None && notices == [] && !dismissNoticeOnScreen && presented == old(presented)
      ensures old(notices) != [] ==>
        && noticeOnScreen == Some(old(notices)[0]) && notices == old(notices)[1..]
        && presented == old(presented) + [old(notices)[0]] && dismissNoticeOnScreen == inApp
      ensures Lineup() == if old(Lineup()) == [] then [] else old(Lineup())[1..]
    {
      ghost var queue := notices;
      dismissNoticeOnScreen := false;
      noticeOnScreen := None;
      PresentNextNoticeIfPossible(inApp);
      if queue != [] {
        forall j | 0 <= j < |notices| ensures !Same(notices[j], queue[0]) {
          assert notices[j] == queue[j + 1];
        }
        forall i, j | 0 <= i < j < |notices| ensures !Same(notices[i], notices[j]) {
          assert notices[i] == queue[i + 1] && notices[j] == queue[j + 1];
        }
      }
    }
  }
}
