/** The poll-creation form of the teacher's landing page
    (frontend/src/pages/teachers-landing/TeacherLandingPage.jsx): the page state,
    the handlers that edit the option list, the validator, and the request sent to
    the server when the teacher asks the question. */
module TeacherForm {
  import opened Wrappers
  import opened JsString
  import opened Polls

  /** One row of the option editor; `correct` is `null` until a radio button is picked. */
  datatype FormOption = FormOption(id: int, text: string, correct: Option<bool>)

  datatype FormError = EmptyQuestion | TooFewOptions | BlankOption | NoCorrectOption

  datatype Validation = Accepted | Rejected(reason: FormError)

  /** The text shown for each rejection. */
  function Message(e: FormError): (m: string)
    ensures m != ""
  {
    match e
    case EmptyQuestion => "Question cannot be empty"
    case TooFewOptions => "At least two options are required"
    case BlankOption => "All options must have text"
    case NoCorrectOption => "At least one correct option must be selected"
  }

  /** Some option is marked correct (`correct === true`). */
  ghost predicate HasCorrect(options: seq<FormOption>) {
    exists i :: 0 <= i < |options| && options[i].correct == Some(true)
  }

  /** Some option text is empty or whitespace only. */
  ghost predicate HasBlankOption(options: seq<FormOption>) {
    exists i :: 0 <= i < |options| && IsBlank(options[i].text)
  }

  lemma OptionTrimsEmptyIffBlank(options: seq<FormOption>)
    ensures forall i :: 0 <= i < |options| ==> (Trim(options[i].text) == [] <==> IsBlank(options[i].text))
  {
    forall i | 0 <= i < |options| ensures Trim(options[i].text) == [] <==> IsBlank(options[i].text) {
      TrimEmptyIffBlank(options[i].text);
    }
  }

  /** `validateForm`: four checks in order, and the first that fails is reported: a
      blank question, fewer than two options, a blank option, no option marked
      correct. The form is accepted exactly when none fails. */
  function Validate(question: string, options: seq<FormOption>): (v: Validation)
    ensures v == Rejected(EmptyQuestion) <==> IsBlank(question)
    ensures v == Rejected(TooFewOptions) <==> !IsBlank(question) && |options| < 2
    ensures v == Rejected(BlankOption) <==>
      !IsBlank(question) && |options| >= 2 && HasBlankOption(options)
    ensures v == Rejected(NoCorrectOption) <==>
      !IsBlank(question) && |options| >= 2 && !HasBlankOption(options) && !HasCorrect(options)
    ensures v == Accepted <==>
      !IsBlank(question) && |options| >= 2 && !HasBlankOption(options) && HasCorrect(options)
  {
    TrimEmptyIffBlank(question);
    OptionTrimsEmptyIffBlank(options);
    if Trim(question) == [] then Rejected(EmptyQuestion)
    else if |options| < 2 then Rejected(TooFewOptions)
    else if exists i :: 0 <= i < |options| && Trim(options[i].text) == [] then Rejected(BlankOption)
    else if !(exists i :: 0 <= i < |options| && options[i].correct == Some(true)) then Rejected(NoCorrectOption)
    else Accepted
  }

  /** The `pollData` that `askQuestion` emits as `createPoll`. */
  datatype PollRequest = PollRequest(question: string, options: seq<OptionInput>, timer: string,
                                     teacherUsername: string)

  /** The form's options as the server receives them: every field present. */
  function Payload(options: seq<FormOption>): seq<OptionInput> {
    seq(|options|, i requires 0 <= i < |options| => OptionInput(Some(options[i].id), Some(options[i].text), options[i].correct))
  }

  /** The server's normalisation keeps every field the form sends and adds no votes. */
  lemma NormalizedPayload(options: seq<FormOption>)
    ensures var r := NormalizeOptions(Payload(options));
      && |r| == |options|
      && forall i :: 0 <= i < |r| ==>
           r[i] == PollOption(options[i].id, options[i].text, options[i].correct, 0)
  {
    var p := Payload(options);
    var r := NormalizeOptions(p);
    forall i | 0 <= i < |r| ensures r[i] == PollOption(options[i].id, options[i].text, options[i].correct, 0) {
      assert p[i] == OptionInput(Some(options[i].id), Some(options[i].text), options[i].correct);
    }
  }

  /** The options of a form that `Validate` accepts (at least two, none blank, one
      marked correct), with ids numbered by position as the page keeps them, become
      on the server a poll with at least two options, each keeping its id, text and
      correct marker, none of them blank, at least one correct, and no votes. */
  lemma AcceptedFormMakesUsablePoll(question: string, options: seq<FormOption>)
    requires |options| >= 2 && !HasBlankOption(options) && HasCorrect(options)
    requires forall i :: 0 <= i < |options| ==> options[i].id == i + 1
    ensures var r := NormalizeOptions(Payload(options));
      && |r| == |options| >= 2
      && (forall i :: 0 <= i < |r| ==>
            && r[i].id == i + 1 && r[i].text == options[i].text && r[i].correct == options[i].correct
            && !IsBlank(r[i].text) && r[i].votes == 0)
      && exists i :: 0 <= i < |r| && r[i].correct == Some(true)
  {
    NormalizedPayload(options);
    var r := NormalizeOptions(Payload(options));
    var c :| 0 <= c < |options| && options[c].correct == Some(true);
    assert r[c].correct == Some(true);
  }

  /** The state of the landing page. Option ids are 1, 2, ... by position: the first
      option is created with id 1 and `addOption` gives the next one. */
  class TeacherLandingPage {
    var question: string
    var options: seq<FormOption>
    var timer: string
    var error: string

    ghost predicate Valid()
      reads this
    {
      |options| >= 1 && forall i :: 0 <= i < |options| ==> options[i].id == i + 1
    }

    /** The initial state: empty question, one empty option, a 60-second timer, no error. */
    constructor ()
      ensures Valid()
      ensures question == "" && options == [FormOption(1, "", None)] && timer == "60" && error == ""
    {
      question := "";
      options := [FormOption(1, "", None)];
      timer := "60";
      error := "";
    }

    /** `handleQuestionChange`. */
    method HandleQuestionChange(value: string)
      requires Valid()
      modifies this`question
      ensures Valid()
      ensures question == value
    {
      question := value;
    }

    /** `handleTimerChange`. */
    method HandleTimerChange(value: string)
      requires Valid()
      modifies this`timer
      ensures Valid()
      ensures timer == value
    {
      timer := value;
    }

    /** `handleOptionChange`: replaces the text of the option at `index`; its id and
        correct marker and every other option stay as they were. */
    method HandleOptionChange(index: nat, value: string)
      requires Valid() && index < |options|
      modifies this`options
      ensures Valid()
      ensures |options| == |old(options)|
      ensures options[index] == old(options)[index].(text := value)
      ensures forall j :: 0 <= j < |options| && j != index ==> options[j] == old(options)[j]
    {
      var updated := options;
      updated := updated[index := updated[index].(text := value)];
      options := updated;
    }

    /** `handleCorrectToggle`: sets the correct marker of the option at `index`; its
        id and text and every other option stay as they were. */
    method HandleCorrectToggle(index: nat, isCorrect: bool)
      requires Valid() && index < |options|
      modifies this`options
      ensures Valid()
      ensures |options| == |old(options)|
      ensures options[index] == old(options)[index].(correct := Some(isCorrect))
      ensures forall j :: 0 <= j < |options| && j != index ==> options[j] == old(options)[j]
    {
      var updated := options;
      updated := updated[index := updated[index].(correct := Some(isCorrect))];
      options := updated;
    }

    /** `addOption`: appends one empty, unmarked option numbered after the others. */
    method AddOption()
      requires Valid()
      modifies this`options
      ensures Valid()
      ensures options == old(options) + [FormOption(|old(options)| + 1, "", None)]
    {
      options := options + [FormOption(|options| + 1, "", None)];
    }

    /** `validateForm`: reports the first failing check's message, or clears the
        error and answers true. */
    method ValidateForm() returns (ok: bool)
      requires Valid()
      modifies this`error
      ensures Valid()
      ensures ok <==> Validate(question, options) == Accepted
      ensures error == if ok then "" else Message(Validate(question, options).reason)
      ensures error == "" <==> ok
    {
      var v := Validate(question, options);
      if v.Rejected? {
        error := Message(v.reason);
        return false;
      }
      error := "";
      return true;
    }

    /** `askQuestion`: when the form validates, emits `createPoll` with the question,
        the options, the timer and the teacher's name (the returned request);
        otherwise sends nothing. */
    method AskQuestion(teacherUsername: string) returns (request: Option<PollRequest>)
      requires Valid()
      modifies this`error
      ensures Valid()
      ensures request.Some? <==> Validate(question, options) == Accepted
      ensures request.Some? ==> request.value == PollRequest(question, Payload(options), timer, teacherUsername)
      ensures error == if request.Some? then "" else Message(Validate(question, options).reason)
    {
      var ok := ValidateForm();
      if ok {
        request := Some(PollRequest(question, Payload(options), timer, teacherUsername));
      } else {
        request := None;
      }
    }
  }
}
