/**
 * The answer buttons of components/ui/QuestionCard.tsx: one button per option, styled from the
 * current selection, and all disabled once an answer has been chosen.
 */
module QuestionCard {
  import opened Wrappers

  /** `styles.option`, `styles.correctAnswer`, `styles.wrongAnswer`. */
  datatype OptionStyle = Plain | Correct | Wrong

  datatype AnswerButton = AnswerButton(text: string, style: OptionStyle, disabled: bool)

  /** The nested ternary on `selectedAnswer === option` and `option === correctAnswer`. */
  function StyleOf(option: string, correctAnswer: string, selectedAnswer: Option<string>): (style: OptionStyle)
    ensures style == Plain <==> selectedAnswer != Some(option)
    ensures style == Correct <==> selectedAnswer == Some(option) && option == correctAnswer
    ensures style == Wrong <==> selectedAnswer == Some(option) && option != correctAnswer
  {
    if selectedAnswer == Some(option) then
      (if option == correctAnswer then Correct else Wrong)
    else
      Plain
  }

  /** `!!selectedAnswer`: both `null` and the empty string are falsy. */
  function Locked(selectedAnswer: Option<string>): (locked: bool)
    ensures locked <==> selectedAnswer.Some? && selectedAnswer.value != ""
  {
    match selectedAnswer
    case None => false
    case Some(answer) => answer != ""
  }

  /** `options.map(...)`: the buttons, in option order. */
  function Render(options: seq<string>, correctAnswer: string, selectedAnswer: Option<string>)
    : (buttons: seq<AnswerButton>)
    ensures |buttons| == |options|
    ensures forall i :: 0 <= i < |options| ==> buttons[i].text == options[i]
    ensures forall i :: 0 <= i < |options| ==>
              (buttons[i].style == Correct <==> selectedAnswer == Some(options[i]) && options[i] == correctAnswer)
    ensures forall i :: 0 <= i < |options| ==>
              (buttons[i].style == Wrong <==> selectedAnswer == Some(options[i]) && options[i] != correctAnswer)
    ensures forall i :: 0 <= i < |options| ==> (buttons[i].disabled <==> Locked(selectedAnswer))
  {
    seq(|options|, i requires 0 <= i < |options| =>
      AnswerButton(options[i], StyleOf(options[i], correctAnswer, selectedAnswer), Locked(selectedAnswer)))
  }

  /** Pressing button i: `onSelect(options[i])`, unless the button is disabled. */
  function Press(buttons: seq<AnswerButton>, i: nat): (selected: Option<string>)
    requires i < |buttons|
    ensures selected.Some? <==> !buttons[i].disabled
    ensures selected.Some? ==> selected.value == buttons[i].text
  {
    if buttons[i].disabled then None else Some(buttons[i].text)
  }

  /** Before any choice every button is plain and can be pressed, and pressing hands over its own option. */
  lemma NothingSelected(options: seq<string>, correctAnswer: string, i: nat)
    requires i < |options|
    ensures Render(options, correctAnswer, None)[i] == AnswerButton(options[i], Plain, false)
    ensures Press(Render(options, correctAnswer, None), i) == Some(options[i])
  {
  }

  /** After a non-empty choice no button can be pressed any more. */
  lemma LockedAfterChoice(options: seq<string>, correctAnswer: string, answer: string, i: nat)
    requires answer != "" && i < |options|
    ensures Press(Render(options, correctAnswer, Some(answer)), i) == None
  {
  }

  /** An unselected option stays plain even when it is the correct answer: the right answer is not revealed. */
  lemma UnselectedIsPlain(options: seq<string>, correctAnswer: string, selectedAnswer: Option<string>, i: nat)
    requires i < |options| && selectedAnswer != Some(options[i])
    ensures Render(options, correctAnswer, selectedAnswer)[i].style == Plain
  {
  }

  /**
   * With pairwise distinct options, exactly the selected option is highlighted, green when it is
   * the correct answer and red otherwise.
   */
  lemma OnlySelectionHighlighted(options: seq<string>, correctAnswer: string, answer: string, k: nat)
    requires forall i, j :: 0 <= i < j < |options| ==> options[i] != options[j]
    requires k < |options| && options[k] == answer
    ensures var buttons := Render(options, correctAnswer, Some(answer));
            && buttons[k].style == (if answer == correctAnswer then Correct else Wrong)
            && forall i :: 0 <= i < |options| && i != k ==> buttons[i].style == Plain
  {
  }

  /**
   * Choosing an empty option highlights it but leaves every button enabled, because the empty
   * string is falsy in `!!selectedAnswer`.
   */
  lemma EmptyChoiceStaysUnlocked(options: seq<string>, correctAnswer: string, k: nat)
    requires k < |options| && options[k] == ""
    ensures Render(options, correctAnswer, Some(""))[k].style != Plain
    ensures forall i :: 0 <= i < |options| ==> !Render(options, correctAnswer, Some(""))[i].disabled
    ensures Press(Render(options, correctAnswer, Some("")), k) == Some("")
  {
  }
}
