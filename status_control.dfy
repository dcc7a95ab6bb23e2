/** machi-vue/src/composables/useStatusControl.js: the client's view of the
    event status, polled from `/api/status`, and the screen flags derived
    from it. A poll's outcome is an input; the `watch` on `currentStatus` is
    run as part of the poll that changed it. */
module StatusControl {
  import opened Wrappers

  const Tutorial := "チュートリアル"
  const Running := "実行中"
  const Results := "結果"
  const Break := "終了"
  const Debug := "デバッグ"

  /** How one `fetch('/api/status')` ended: it (or `res.json()`) threw, the
      response was not ok, or the body's `status` field was read. */
  datatype FetchOutcome = Threw | NotOk(code: int) | Fetched(status: Option<string>)

  class StatusControl {
    var currentStatus: string
    var isLoading: bool
    var lastStatus: string
    var tutorialCompleted: bool

    /** `lastStatus` only ever holds the status that was replaced, so it
        equals the current one only while both are still empty. */
    ghost predicate Valid()
      reads this
    {
      lastStatus == currentStatus ==> lastStatus == ""
    }

    /** `useStatusControl()`: nothing fetched yet, loading. */
    constructor ()
      ensures currentStatus == "" && lastStatus == "" && isLoading && !tutorialCompleted
      ensures Valid()
    {
      currentStatus := "";
      isLoading := true;
      lastStatus := "";
      tutorialCompleted := false;
    }

    predicate IsPreparation() reads this { currentStatus == Tutorial }
    predicate IsInProgress() reads this { currentStatus == Running }
    predicate IsCompleted() reads this { currentStatus == Results }
    predicate IsBreak() reads this { currentStatus == Break }
    predicate IsDebug() reads this { currentStatus == Debug }

    /** `statusChanged`. */
    predicate StatusChanged()
      reads this
    {
      lastStatus != "" && lastStatus != currentStatus
    }

    predicate ShouldShowResult() reads this { IsCompleted() }

    /** The map screen, which never shows with the results. */
    predicate ShouldShowMap()
      reads this
      ensures ShouldShowMap() ==> !ShouldShowResult()
    {
      IsInProgress() || IsDebug()
    }

    /** The tutorial screen, which never shows with the map or the results. */
    predicate ShouldShowTutorial()
      reads this
      ensures ShouldShowTutorial() ==> !ShouldShowMap() && !ShouldShowResult()
    {
      IsPreparation()
    }

    /** The loading screen. Once the first poll has ended it shows only for the
        break status, and then no other main screen shows. */
    predicate ShouldShowLoading()
      reads this
      ensures !isLoading && ShouldShowLoading() ==>
                currentStatus == Break && !ShouldShowTutorial() && !ShouldShowMap() && !ShouldShowResult()
    {
      isLoading || IsBreak()
    }

    predicate ShouldShowPostTutorialLoading()
      reads this
    {
      tutorialCompleted && !ShouldShowMap() && !ShouldShowResult()
    }

    /** The state update of `fetchStatus`: after a successful read, a
        different status moves the current one to `lastStatus` (and entering
        the tutorial clears `tutorialCompleted`), and loading ends; a failed
        or thrown fetch changes nothing. */
    method FetchStatus(outcome: FetchOutcome)
      requires Valid()
      modifies this`currentStatus, this`lastStatus, this`isLoading, this`tutorialCompleted
      ensures Valid()
      ensures !outcome.Fetched? ==>
                && currentStatus == old(currentStatus) && lastStatus == old(lastStatus)
                && isLoading == old(isLoading) && tutorialCompleted == old(tutorialCompleted)
      ensures outcome.Fetched? ==> !isLoading
      ensures outcome.Fetched? ==>
                var newStatus := if Truthy(outcome.status) then outcome.status.value else "";
                if newStatus != old(currentStatus) then
                  && lastStatus == old(currentStatus) && currentStatus == newStatus
                  && tutorialCompleted == (old(tutorialCompleted) && newStatus != Tutorial)
                else
                  currentStatus == old(currentStatus) && lastStatus == old(lastStatus)
                  && tutorialCompleted == old(tutorialCompleted)
    {
      if !outcome.Fetched? {
        return;
      }
      // data.status || ''
      var newStatus := if Truthy(outcome.status) then outcome.status.value else "";
      if currentStatus != newStatus {
        var oldStatus := currentStatus;
        lastStatus := currentStatus;
        currentStatus := newStatus;
        OnStatusChange(newStatus, oldStatus);
      }
      isLoading := false;
    }

    /** The `watch(currentStatus, ...)` callback. */
    method OnStatusChange(newStatus: string, oldStatus: string)
      modifies this`tutorialCompleted
      ensures newStatus == Tutorial && oldStatus != Tutorial ==> !tutorialCompleted
      ensures !(newStatus == Tutorial && oldStatus != Tutorial) ==> tutorialCompleted == old(tutorialCompleted)
    {
      if newStatus == Tutorial && oldStatus != Tutorial {
        tutorialCompleted := false;
      }
    }

    /** `completeTutorial`. */
    method CompleteTutorial()
      modifies this`tutorialCompleted
      ensures tutorialCompleted
    {
      tutorialCompleted := true;
    }
  }

  /** With `lastStatus` holding only replaced statuses, a change is reported
      exactly when there was an earlier status. */
  lemma ChangedIffEarlierStatus(c: StatusControl)
    requires c.Valid()
    ensures c.StatusChanged() <==> c.lastStatus != ""
  {
  }

  /** No status string raises two of the five status flags. */
  lemma AtMostOneFlag(c: StatusControl)
    ensures c.IsPreparation() ==> !c.IsInProgress() && !c.IsCompleted() && !c.IsBreak() && !c.IsDebug()
    ensures c.IsInProgress() ==> !c.IsCompleted() && !c.IsBreak() && !c.IsDebug()
    ensures c.IsCompleted() ==> !c.IsBreak() && !c.IsDebug()
    ensures c.IsBreak() ==> !c.IsDebug()
  {
  }

  /** The map shows for the running and debug statuses only, and never
      together with the tutorial. */
  lemma MapScreen(c: StatusControl)
    ensures c.ShouldShowMap() <==> c.currentStatus == Running || c.currentStatus == Debug
    ensures !(c.ShouldShowTutorial() && c.ShouldShowMap())
  {
  }

  /** The post-tutorial wait screen needs a completed tutorial, and rules
      out the map and the results. */
  lemma PostTutorialLoading(c: StatusControl)
    ensures c.ShouldShowPostTutorialLoading() ==>
              c.tutorialCompleted && !c.ShouldShowMap() && !c.ShouldShowResult()
  {
  }
}
