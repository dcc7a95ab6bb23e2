/** machi-vue/src/composables/useTutorial.js: the ten-step tutorial story and
    the stepper over it. `currentStep` counts from 1; the browser's
    `localStorage` is the string map `storage`. */
module Tutorial {
  import opened Wrappers
  import opened TextOps

  datatype StoryStep = StoryStep(
    title: string, message: string, character: string,
    isNameInput: bool, isNameDisplay: bool)

  const Welcome := "https://lottie.host/f388a0b2-cce4-4681-a943-d8fb67a984d7/XfkX4AvJZo.json"
  const Pointing := "https://lottie.host/98be370f-0447-4347-b2c1-8256fc4c440d/HdoBME0ofD.json"
  const Puzzled := "https://lottie.host/f26cbe82-399e-4375-aa69-d2f5ac331887/0wfU1QJrz7.json"

  /** The message of the step that greets the student by name, around its
      `{name}` placeholder. */
  const GreetingBefore := "それじゃあ、"
  const Placeholder := "{name}"
  const GreetingAfter := "\nきょうはよろしくね！"
  const GreetingMessage := GreetingBefore + Placeholder + GreetingAfter

  /** `tutorialStory`. */
  const TutorialStory: seq<StoryStep> := [
    StoryStep("たぬけん", "きょうは、たんけんをてつだいに\n来てくれて、ありがとう！", Welcome, false, false),
    StoryStep("たぬけん", "ぼくは『たぬけん』！よろしくね！！", Welcome, false, false),
    StoryStep("たぬけん", "きょうのたんけんルートは\n水にかんけいするいきもの。", Pointing, false, false),
    StoryStep("たぬけん", "けれど、そのいきものがだれか\nぼくにもわからないんだ...", Puzzled, false, false),
    StoryStep("たぬけん", "『気づき』をあつめていけば、\nだれかわかるかもしれないよ！", Pointing, false, false),
    StoryStep("たぬけん", "『気づき』は、トランシーバーで\nぼくに報告してね！", Welcome, false, false),
    StoryStep("たぬけん", "トランシーバーを用意して！", Pointing, false, false),
    StoryStep("たぬけん", "ボタンをおしながら\n「じゅんびOK！」といってみよう", Pointing, false, false),
    StoryStep("たぬけん", "さいごに、きみのなまえは？", Welcome, true, false),
    StoryStep("たぬけん", GreetingMessage, Welcome, false, true)
  ]

  /** The name used when neither the ref nor storage has one. */
  const DefaultName := "たんけんたい"

  /** The `localStorage` key the name is saved under. */
  const NameKey := "studentName"

  /** The ninth step asks for the name and the tenth, the last, shows it. */
  lemma StoryShape()
    ensures |TutorialStory| == 10
    ensures forall i :: 0 <= i < |TutorialStory| ==> (TutorialStory[i].isNameInput <==> i == 8)
    ensures forall i :: 0 <= i < |TutorialStory| ==> (TutorialStory[i].isNameDisplay <==> i == 9)
  {
  }

  /** The state `useTutorial()` returns. */
  class Tutorial {
    var currentStep: int
    var isCompleted: bool
    var studentName: string
    var storage: map<string, string>

    /** The step names an entry of the story. */
    ghost predicate InRange()
      reads this
    {
      1 <= currentStep <= |TutorialStory|
    }

    /** `useTutorial()`: step 1, not completed, no name yet. */
    constructor (storage: map<string, string>)
      ensures currentStep == 1 && !isCompleted && studentName == ""
      ensures this.storage == storage
      ensures InRange()
    {
      currentStep := 1;
      isCompleted := false;
      studentName := "";
      this.storage := storage;
    }

    /** `currentStepData`: the story entry of the current step, or null
        exactly when the step is outside the story. */
    function CurrentStepData(): (r: Option<StoryStep>)
      reads this
      ensures r.Some? <==> 1 <= currentStep <= |TutorialStory|
      ensures r.Some? ==> r.value == TutorialStory[currentStep - 1]
    {
      var index := currentStep - 1;
      if index < 0 || index >= |TutorialStory| then None else Some(TutorialStory[index])
    }

    /** `nextStep`: advances below the last step; at or past it, only sets
        the completion flag. */
    method NextStep()
      modifies this`currentStep, this`isCompleted
      ensures old(currentStep) < |TutorialStory| ==> currentStep == old(currentStep) + 1 && isCompleted == old(isCompleted)
      ensures old(currentStep) >= |TutorialStory| ==> currentStep == old(currentStep) && isCompleted
      ensures old(InRange()) ==> InRange()
    {
      if currentStep < |TutorialStory| {
        currentStep := currentStep + 1;
        // the completion check after the increment: the step is at most the
        // length here, so the flag keeps its value
        isCompleted := isCompleted || currentStep > |TutorialStory|;
      } else {
        isCompleted := true;
      }
    }

    /** `previousStep`: goes back one step, but never below 1. */
    method PreviousStep()
      modifies this`currentStep
      ensures old(currentStep) > 1 ==> currentStep == old(currentStep) - 1
      ensures old(currentStep) <= 1 ==> currentStep == old(currentStep)
      ensures old(InRange()) ==> InRange()
    {
      if currentStep > 1 {
        currentStep := currentStep - 1;
      }
    }

    /** `setNameAndNext`: keeps the name in the ref and in storage, then
        does what `nextStep` does. */
    method SetNameAndNext(name: string)
      modifies this`studentName, this`storage, this`currentStep, this`isCompleted
      ensures studentName == name
      ensures storage == old(storage)[NameKey := name]
      ensures old(currentStep) < |TutorialStory| ==> currentStep == old(currentStep) + 1 && isCompleted == old(isCompleted)
      ensures old(currentStep) >= |TutorialStory| ==> currentStep == old(currentStep) && isCompleted
      ensures old(InRange()) ==> InRange()
    {
      studentName := name;
      storage := storage[NameKey := name];
      NextStep();
    }

    /** `resetTutorial`: back to the initial state; storage keeps the name. */
    method ResetTutorial()
      modifies this`currentStep, this`isCompleted, this`studentName
      ensures currentStep == 1 && !isCompleted && studentName == ""
      ensures InRange()
    {
      currentStep := 1;
      isCompleted := false;
      studentName := "";
    }

    /** `studentName || localStorage.getItem('studentName') || 'たんけんたい'`. */
    function DisplayName(): (r: string)
      reads this
      ensures r != ""
      ensures studentName != "" ==> r == studentName
      ensures studentName == "" && NameKey in storage && storage[NameKey] != "" ==> r == storage[NameKey]
      ensures r == studentName || (NameKey in storage && r == storage[NameKey]) || r == DefaultName
    {
      if studentName != "" then studentName
      else if NameKey in storage && storage[NameKey] != "" then storage[NameKey]
      else DefaultName
    }

    /** `getDisplayMessage`: empty outside the story; on the name step, the
        first `{name}` replaced by the display name; otherwise the message. */
    function GetDisplayMessage(): (r: string)
      reads this
      ensures CurrentStepData().None? ==> r == ""
      ensures CurrentStepData().Some? && !CurrentStepData().value.isNameDisplay ==> r == CurrentStepData().value.message
      ensures currentStep != |TutorialStory| ==> r == "" || r == CurrentStepData().value.message
    {
      var stepData := CurrentStepData();
      if stepData.None? then ""
      else if stepData.value.isNameDisplay then ReplaceFirst(stepData.value.message, Placeholder, DisplayName())
      else stepData.value.message
    }

    /** The message as evidently intended: on the name step, the first
        `{name}` replaced by the display name taken literally. */
    function IntendedDisplayMessage(): (r: string)
      reads this
      ensures CurrentStepData().None? ==> r == ""
      ensures CurrentStepData().Some? && !CurrentStepData().value.isNameDisplay ==> r == CurrentStepData().value.message
      ensures '$' !in DisplayName() ==> r == GetDisplayMessage()
    {
      var stepData := CurrentStepData();
      if stepData.None? then ""
      else if stepData.value.isNameDisplay then
        ReplaceFirstAgrees(stepData.value.message, Placeholder, DisplayName());
        ReplaceFirstVerbatim(stepData.value.message, Placeholder, DisplayName())
      else stepData.value.message
    }
  }

  /** `{name}` first occurs in the greeting right after its opening words. */
  lemma GreetingPlaceholder()
    ensures OccursAt(GreetingMessage, Placeholder, |GreetingBefore|)
    ensures forall j: nat :: j < |GreetingBefore| ==> !OccursAt(GreetingMessage, Placeholder, j)
  {
    var n := |GreetingBefore|;
    assert GreetingMessage[n..n + |Placeholder|] == Placeholder;
    forall j: nat | j < n
      ensures !OccursAt(GreetingMessage, Placeholder, j)
    {
      assert GreetingMessage[j] == GreetingBefore[j];
      assert '{' !in GreetingBefore;
    }
  }

  /** On the last step, a display name without `$` is put in place of
      `{name}`. */
  lemma GreetingShowsName(t: Tutorial)
    requires t.currentStep == |TutorialStory|
    requires '$' !in t.DisplayName()
    ensures t.GetDisplayMessage() == GreetingBefore + t.DisplayName() + GreetingAfter
  {
    var n := |GreetingBefore|;
    GreetingPlaceholder();
    ReplaceFirstLiteral(GreetingMessage, Placeholder, t.DisplayName(), n);
    assert GreetingMessage[..n] == GreetingBefore;
    assert GreetingMessage[n + |Placeholder|..] == GreetingAfter;
  }

  /** As written, a display name `$&` puts the matched `{name}` back: the
      greeting shows the raw placeholder, not the name. */
  lemma DollarNameShowsPlaceholder(t: Tutorial)
    requires t.currentStep == |TutorialStory| && t.DisplayName() == "$&"
    ensures t.GetDisplayMessage() == GreetingMessage
    ensures t.GetDisplayMessage() != t.IntendedDisplayMessage()
  {
    var n := |GreetingBefore|;
    GreetingPlaceholder();
    assert IndexOf(GreetingMessage, Placeholder) == Some(n);
    var before, after := GreetingMessage[..n], GreetingMessage[n + |Placeholder|..];
    assert Substitution("$&", Placeholder, before, after) == Placeholder by {
      assert "$&"[2..] == "";
    }
    assert before + Placeholder + after == GreetingMessage;
    IntendedGreetingShowsName(t);
  }

  /** The intended message shows every display name, `$` or not, in place of
      `{name}`. */
  lemma IntendedGreetingShowsName(t: Tutorial)
    requires t.currentStep == |TutorialStory|
    ensures t.IntendedDisplayMessage() == GreetingBefore + t.DisplayName() + GreetingAfter
  {
    var n := |GreetingBefore|;
    GreetingPlaceholder();
    assert IndexOf(GreetingMessage, Placeholder) == Some(n);
    assert GreetingMessage[..n] == GreetingBefore;
    assert GreetingMessage[n + |Placeholder|..] == GreetingAfter;
  }
}
