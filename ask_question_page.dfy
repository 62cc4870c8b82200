/**
  The ask-question form: its validity test, its submit button, and the submit
  handler, which hands a normalised request to the store's `addQuestion` and
  navigates to the new question.
 */
module AskQuestionPage {
  import Text

  /** The form's fields. */
  datatype Form = Form(title: string, content: string, tags: seq<string>)

  /** What `addQuestion` receives. */
  datatype QuestionRequest = QuestionRequest(title: string, content: string, tags: seq<string>)

  /** What a call of `addQuestion` does: return the new question's id (as the
      text the navigation path embeds) or throw. */
  datatype AddOutcome = Returned(id: string) | Threw

  /** The observable steps of a submit, in order. */
  datatype Effect =
    | SetSubmitting(on: bool)
    | CallAddQuestion(request: QuestionRequest)
    | Navigate(path: string)

  /** `isValid`: a title and content that are not blank once trimmed, and a tag. */
  predicate IsValid(f: Form)
    ensures IsValid(f) ==> |f.title| > 0 && |f.content| > 0 && |f.tags| > 0
  {
    |Text.Trim(f.title)| > 0 && |Text.Trim(f.content)| > 0 && |f.tags| > 0
  }

  /** The form is valid iff neither title nor content is all white space and
      at least one tag is chosen. */
  lemma IsValidMeans(f: Form)
    ensures IsValid(f) <==> !Text.IsBlank(f.title) && !Text.IsBlank(f.content) && |f.tags| > 0
  {
    Text.TrimEmptyIffBlank(f.title);
    Text.TrimEmptyIffBlank(f.content);
  }

  /** A white-space-only title or content makes the form invalid, whatever the tags. */
  lemma BlankInvalid(f: Form)
    requires Text.IsBlank(f.title) || Text.IsBlank(f.content)
    ensures !IsValid(f)
  {
    IsValidMeans(f);
  }

  /** The request a valid submit hands to `addQuestion`. */
  function Request(f: Form): (q: QuestionRequest)
    ensures q.content == f.content && q.tags == f.tags
    ensures |q.title| <= |f.title|
    ensures q.title == "" <==> Text.IsBlank(f.title)
  {
    Text.TrimEmptyIffBlank(f.title);
    QuestionRequest(Text.Trim(f.title), f.content, f.tags)
  }

  /** The request passes the same checks again, with its title already trimmed,
      so a store that re-validates never rejects it. */
  lemma RequestRevalidates(f: Form)
    requires IsValid(f)
    ensures var q := Request(f);
      IsValid(Form(q.title, q.content, q.tags)) && Text.Trim(q.title) == q.title
  {
    Text.TrimIdempotent(f.title);
  }

  /** Where a successful submit navigates: `/question/${questionId}`. */
  function QuestionPath(id: string): (p: string)
    ensures |p| == 10 + |id| && p[..10] == "/question/" && p[10..] == id
  {
    "/question/" + id
  }

  /** The steps of a submit of a valid form whose request is `request`, when
      the call of `addQuestion` has `outcome`. */
  function ValidSubmitEffects(request: QuestionRequest, outcome: AddOutcome): (effects: seq<Effect>)
    ensures 3 <= |effects| <= 4
    ensures effects[0] == SetSubmitting(true) && effects[1] == CallAddQuestion(request)
    ensures effects[|effects| - 1] == SetSubmitting(false)
    ensures outcome.Returned? ==> |effects| == 4 && effects[2] == Navigate(QuestionPath(outcome.id))
    ensures outcome.Threw? ==> |effects| == 3
  {
    [SetSubmitting(true), CallAddQuestion(request)]
    + (if outcome.Returned? then [Navigate(QuestionPath(outcome.id))] else [])
    + [SetSubmitting(false)]
  }

  /** A valid submit calls `addQuestion` once, navigates at most once, and
      navigates only to the path of the id `addQuestion` returned. */
  lemma ValidSubmitCallsOnce(request: QuestionRequest, outcome: AddOutcome)
    ensures forall i :: 0 <= i < |ValidSubmitEffects(request, outcome)| ==>
      (ValidSubmitEffects(request, outcome)[i].CallAddQuestion? <==> i == 1)
    ensures forall i ::
      (0 <= i < |ValidSubmitEffects(request, outcome)| && ValidSubmitEffects(request, outcome)[i].Navigate?) ==>
      i == 2 && outcome.Returned? && ValidSubmitEffects(request, outcome)[i].path == QuestionPath(outcome.id)
  {
  }

  /** The steps of `handleSubmit` on form `f`, given what `addQuestion` does:
      nothing on an invalid form, the steps of a valid submit otherwise. */
  function SubmitEffects(f: Form, addQuestion: QuestionRequest -> AddOutcome): (effects: seq<Effect>)
    ensures !IsValid(f) ==> effects == []
    ensures IsValid(f) ==> |effects| >= 3 && effects[1] == CallAddQuestion(Request(f))
  {
    if !IsValid(f) then [] else ValidSubmitEffects(Request(f), addQuestion(Request(f)))
  }

  /** The submit button: disabled, and drawn greyed out, while the form is
      invalid or a submit is in progress; its caption says when one is. */
  datatype SubmitButton = SubmitButton(disabled: bool, highlighted: bool, caption: string)

  const PublishCaption: string := "Publish Question"
  const PublishingCaption: string := "Publishing..."

  function SubmitButtonView(f: Form, isSubmitting: bool): (b: SubmitButton)
    ensures b.disabled <==> !IsValid(f) || isSubmitting
    ensures b.highlighted <==> !b.disabled
    ensures b.caption == if isSubmitting then PublishingCaption else PublishCaption
  {
    var disabled := !IsValid(f) || isSubmitting;
    SubmitButton(disabled, !disabled, if isSubmitting then PublishingCaption else PublishCaption)
  }

  /** The page's state. */
  class AskQuestionState {
    var title: string
    var content: string
    var tags: seq<string>
    var isSubmitting: bool

    constructor ()
      ensures title == "" && content == "" && tags == [] && !isSubmitting
    {
      title, content, tags, isSubmitting := "", "", [], false;
    }

    function CurrentForm(): Form
      reads this
    {
      Form(title, content, tags)
    }

    method SetTitle(v: string)
      modifies this
      ensures title == v && content == old(content) && tags == old(tags) && isSubmitting == old(isSubmitting)
    {
      title := v;
    }

    method SetContent(v: string)
      modifies this
      ensures content == v && title == old(title) && tags == old(tags) && isSubmitting == old(isSubmitting)
    {
      content := v;
    }

    method SetTags(v: seq<string>)
      modifies this
      ensures tags == v && title == old(title) && content == old(content) && isSubmitting == old(isSubmitting)
    {
      tags := v;
    }

    /** `handleSubmit`: returns at once on an invalid form; otherwise raises
        `isSubmitting`, calls `addQuestion`, navigates to the returned id unless
        it threw, and lowers `isSubmitting` again in either case. The fields of
        the form are left as they were. */
    method HandleSubmit(addQuestion: QuestionRequest -> AddOutcome) returns (effects: seq<Effect>)
      modifies this
      ensures effects == SubmitEffects(old(CurrentForm()), addQuestion)
      ensures CurrentForm() == old(CurrentForm())
      ensures isSubmitting == if IsValid(old(CurrentForm())) then false else old(isSubmitting)
    {
      var form := CurrentForm();
      effects := [];
      if !IsValid(form) {
        return;
      }
      isSubmitting := true;
      effects := [SetSubmitting(true)];
      var request := QuestionRequest(Text.Trim(form.title), form.content, form.tags);
      effects := effects + [CallAddQuestion(request)];
      var outcome := addQuestion(request);
      var navigation := [];
      if outcome.Returned? {
        navigation := [Navigate(QuestionPath(outcome.id))];
      }
      isSubmitting := false;
      effects := effects + navigation + [SetSubmitting(false)];
    }
  }
}
