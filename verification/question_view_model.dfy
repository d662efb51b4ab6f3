/** The survey's navigation state machine (`QuestionViewModel`).

    The view model holds the question list, the state shown on screen
    (`UiState`: a 1-based question counter, the question count, the current
    question and the current selection) and one saved selection per question.
    Its transitions are `next`, `previous` and `onOptionSelected`.

    The Kotlin class mutates a state holder in place; here a view model is an
    immutable value and each transition returns the next one. Kotlin list
    indexing throws on an index outside the list; the transitions return that
    failure as `IndexOutOfBounds(index)` instead of assuming it away.

    Answer options and questions keep the source's shape; their Android
    resource identifiers are plain integers. */
module Survey {
  import opened Optional

  /** Kotlin `Option`: one answer a question offers, a text resource and an
      optional image resource. */
  datatype AnswerOption = AnswerOption(text: int, image: Option<int>)

  /** Kotlin `Question`: a title resource and the answers offered. */
  type Question = (int, seq<AnswerOption>)

  /** `UiState`: what the question screen renders. */
  datatype UiState = UiState(questionCount: int, totalQuestions: int, question: Question, userSelection: Option<AnswerOption>)

  /** `UiState.hasNext`. */
  predicate HasNext(u: UiState)
  {
    u.questionCount < u.totalQuestions
  }

  /** `UiState.hasPrevious`. */
  predicate HasPrevious(u: UiState)
  {
    u.questionCount > 1
  }

  /** The view model's whole state. */
  datatype ViewModel = ViewModel(questions: seq<Question>, uiState: UiState, userSelections: seq<Option<AnswerOption>>)

  /** A transition's outcome: the next view model, or the index of a list
      access that would throw. */
  datatype Result<+T> = Ok(value: T) | IndexOutOfBounds(index: int)

  /** The view model's private `hasNext`: compares against the list itself. */
  predicate CanGoNext(vm: ViewModel)
  {
    vm.uiState.questionCount < |vm.questions|
  }

  /** The view model's private `hasPrevious`, as written: `questionCount > 0`. */
  predicate CanGoBackAsWritten(vm: ViewModel)
  {
    vm.uiState.questionCount > 0
  }

  /** The view model's private `questionIndex`: the 0-based current question. */
  function QuestionIndex(vm: ViewModel): int
  {
    vm.uiState.questionCount - 1
  }

  /** The object invariant: the counter is within the list, the total is the
      list's size, there is one saved selection per question, and the state
      shows the current question with its saved selection. */
  ghost predicate Valid(vm: ViewModel)
  {
    var n := |vm.questions|;
    && 1 <= vm.uiState.questionCount <= n
    && vm.uiState.totalQuestions == n
    && |vm.userSelections| == n
    && vm.uiState.question == vm.questions[vm.uiState.questionCount - 1]
    && vm.uiState.userSelection == vm.userSelections[vm.uiState.questionCount - 1]
  }

  /** Construction: counter 1, the first question, nothing selected anywhere.
      An empty question list makes `questions[0]` throw. */
  function Init(questions: seq<Question>): (r: Result<ViewModel>)
    ensures |questions| == 0 <==> r == IndexOutOfBounds(0)
    ensures r.Ok? ==> Valid(r.value) && r.value.questions == questions
    ensures r.Ok? ==> r.value.uiState.questionCount == 1 && r.value.uiState.userSelection == None
    ensures r.Ok? ==> forall i | 0 <= i < |questions| :: r.value.userSelections[i] == None
  {
    if |questions| == 0 then IndexOutOfBounds(0)
    else
      var state := UiState(1, |questions|, questions[0], None);
      Ok(ViewModel(questions, state, seq(|questions|, _ => None)))
  }

  /** The state update shared by `next` and `previous`: show question number
      `count`, with the selection saved for it. Reading either list at index
      `count - 1` may throw. */
  function MoveTo(vm: ViewModel, count: int): Result<ViewModel>
  {
    var i := count - 1;
    if !(0 <= i < |vm.questions|) then IndexOutOfBounds(i)
    else if !(0 <= i < |vm.userSelections|) then IndexOutOfBounds(i)
    else
      Ok(vm.(uiState := vm.uiState.(questionCount := count,
                                    question := vm.questions[i],
                                    userSelection := vm.userSelections[i])))
  }

  /** `next`: a no-op on the last question; otherwise one question forward,
      restoring that question's saved selection. */
  function Next(vm: ViewModel): (r: Result<ViewModel>)
    ensures Valid(vm) ==> r.Ok? && Valid(r.value)
    ensures Valid(vm) ==> r.value.questions == vm.questions && r.value.userSelections == vm.userSelections
    ensures Valid(vm) ==> r.value.uiState.totalQuestions == vm.uiState.totalQuestions
    ensures Valid(vm) && !HasNext(vm.uiState) ==> r.value == vm
    ensures Valid(vm) && HasNext(vm.uiState) ==> r.value.uiState.questionCount == vm.uiState.questionCount + 1
  {
    if !CanGoNext(vm) then Ok(vm) else MoveTo(vm, vm.uiState.questionCount + 1)
  }

  /** `previous` as written: its guard is `questionCount > 0`, so on the first
      question it goes on to read `questions[-1]`, which throws. Where
      `UiState.hasPrevious` holds it behaves like the corrected `Previous`. */
  function PreviousAsWritten(vm: ViewModel): (r: Result<ViewModel>)
    ensures Valid(vm) && vm.uiState.questionCount == 1 ==> r == IndexOutOfBounds(-1)
    ensures Valid(vm) && HasPrevious(vm.uiState) ==> r == Previous(vm)
  {
    if !CanGoBackAsWritten(vm) then Ok(vm) else MoveTo(vm, vm.uiState.questionCount - 1)
  }

  /** `previous` with the guard `UiState.hasPrevious` (`questionCount > 1`):
      a no-op on the first question; otherwise one question back, restoring
      that question's saved selection. */
  function Previous(vm: ViewModel): (r: Result<ViewModel>)
    ensures Valid(vm) ==> r.Ok? && Valid(r.value)
    ensures Valid(vm) ==> r.value.questions == vm.questions && r.value.userSelections == vm.userSelections
    ensures Valid(vm) ==> r.value.uiState.totalQuestions == vm.uiState.totalQuestions
    ensures Valid(vm) && !HasPrevious(vm.uiState) ==> r.value == vm
    ensures Valid(vm) && HasPrevious(vm.uiState) ==> r.value.uiState.questionCount == vm.uiState.questionCount - 1
  {
    if !HasPrevious(vm.uiState) then Ok(vm) else MoveTo(vm, vm.uiState.questionCount - 1)
  }

  /** `onOptionSelected`: saves the selection in the current question's slot
      and shows it; nothing else changes. */
  function OnOptionSelected(vm: ViewModel, selection: AnswerOption): (r: Result<ViewModel>)
    ensures Valid(vm) ==> r.Ok? && Valid(r.value)
    ensures Valid(vm) ==> r.value.questions == vm.questions
    ensures Valid(vm) ==> r.value.uiState == vm.uiState.(userSelection := Some(selection))
    ensures Valid(vm) ==> |r.value.userSelections| == |vm.userSelections|
    ensures Valid(vm) ==> r.value.userSelections[QuestionIndex(vm)] == Some(selection)
    ensures Valid(vm) ==> forall j | 0 <= j < |vm.userSelections| && j != QuestionIndex(vm) ::
                            r.value.userSelections[j] == vm.userSelections[j]
  {
    var i := QuestionIndex(vm);
    if !(0 <= i < |vm.userSelections|) then IndexOutOfBounds(i)
    else
      Ok(vm.(userSelections := vm.userSelections[i := Some(selection)],
             uiState := vm.uiState.(userSelection := Some(selection))))
  }

  // ---------------------------------------------------------------------------
  // Properties

  /** The private `hasNext` agrees with `UiState.hasNext`. */
  lemma HasNextAgrees(vm: ViewModel)
    requires Valid(vm)
    ensures CanGoNext(vm) <==> HasNext(vm.uiState)
  {
  }

  /** The two `hasPrevious` disagree exactly on the first question: the
      private one never blocks a valid state. */
  lemma HasPreviousDisagrees(vm: ViewModel)
    requires Valid(vm)
    ensures CanGoBackAsWritten(vm)
    ensures CanGoBackAsWritten(vm) && !HasPrevious(vm.uiState) <==> vm.uiState.questionCount == 1
  {
  }

  /** `previous` as written throws right after construction, on index -1. */
  lemma PreviousAsWrittenThrowsAtStart(questions: seq<Question>)
    requires |questions| > 0
    ensures Init(questions).Ok?
    ensures PreviousAsWritten(Init(questions).value) == IndexOutOfBounds(-1)
  {
  }

  /** `next` then `previous` returns to the very same state. */
  lemma NextThenPrevious(vm: ViewModel)
    requires Valid(vm) && HasNext(vm.uiState)
    ensures Previous(Next(vm).value) == Ok(vm)
  {
  }

  /** `previous` then `next` returns to the very same state. */
  lemma PreviousThenNext(vm: ViewModel)
    requires Valid(vm) && HasPrevious(vm.uiState)
    ensures Next(Previous(vm).value) == Ok(vm)
  {
  }

  /** A selection made on a question is shown again after moving forward and
      back. */
  lemma SelectionSurvivesRoundTrip(vm: ViewModel, selection: AnswerOption)
    requires Valid(vm) && HasNext(vm.uiState)
    ensures var selected := OnOptionSelected(vm, selection).value;
            var back := Previous(Next(selected).value).value;
            back == selected && back.uiState.userSelection == Some(selection)
  {
    var selected := OnOptionSelected(vm, selection).value;
    NextThenPrevious(selected);
  }

  // ---------------------------------------------------------------------------
  // The question screen driving the view model

  /** A user action on the question screen. */
  datatype Click = ClickPrevious | ClickNext | Select(option: AnswerOption)

  /** Runs the question screen's clicks against the view model as written.
      The screen enables the Previous button only while `UiState.hasPrevious`
      holds, enables the Next button only once a selection is shown, and turns
      Next into Done (leaving the screen) on the last question. Under that
      gating no click ever reaches the throwing read of `previous`. */
  method RunScreen(questions: seq<Question>, clicks: seq<Click>) returns (r: Result<ViewModel>, done: bool)
    ensures |questions| == 0 <==> r.IndexOutOfBounds?
    ensures r.Ok? ==> Valid(r.value) && r.value.questions == questions
    ensures done ==> r.Ok? && !HasNext(r.value.uiState)
  {
    r := Init(questions);
    done := false;
    if r.IndexOutOfBounds? {
      return;
    }
    var vm := r.value;
    var k := 0;
    while k < |clicks|
      invariant 0 <= k <= |clicks|
      invariant Valid(vm) && vm.questions == questions
      decreases |clicks| - k
    {
      match clicks[k] {
        case ClickPrevious =>
          if HasPrevious(vm.uiState) {
            vm := PreviousAsWritten(vm).value;
          }
        case ClickNext =>
          if vm.uiState.userSelection.Some? {
            if HasNext(vm.uiState) {
              vm := Next(vm).value;
            } else {
              done := true;
              break;
            }
          }
        case Select(option) =>
          vm := OnOptionSelected(vm, option).value;
      }
      k := k + 1;
    }
    r := Ok(vm);
  }
}
