/**
 * The status updates the drafts page sends (`publishNow` and `schedulePublish` in
 * ClientApp/src/app/drafts/drafts.component.ts) and what they do to a row on the server.
 */
module Drafts {
  import opened Wrappers
  import opened Contents

  /** `publishNow`: draft false and active true, nothing else. */
  const PublishNowRequest: ContentUpdateRequest := ContentUpdateRequest(Some(false), Some(true), None)

  /** The outcome of `schedulePublish`: an update sent, nothing sent (prompt cancelled or empty), or the date was invalid. */
  datatype ScheduleOutcome = Send(request: ContentUpdateRequest) | NothingSent | InvalidDate

  /**
   * `schedulePublish`: `answer` is what `prompt` returned (None when cancelled) and `parsed` the
   * instant `new Date(answer)` denotes (None when `toISOString` throws on an invalid date).
   */
  function SchedulePublish(answer: Option<string>, parsed: Option<int>): (o: ScheduleOutcome)
    ensures o.Send? <==> answer.Some? && answer.value != "" && parsed.Some?
    ensures o.Send? ==> o.request == ContentUpdateRequest(None, None, parsed)
    ensures (answer.None? || answer.value == "") ==> o == NothingSent
    ensures answer.Some? && answer.value != "" && parsed.None? ==> o == InvalidDate
  {
    if answer.None? || answer.value == "" then NothingSent
    else if parsed.None? then InvalidDate
    else Send(ContentUpdateRequest(None, None, parsed))
  }

  /**
   * Publishing now makes the row a non-draft and active, and keeps its text and its publication
   * date: a row scheduled earlier stays scheduled, so it is publishable at once only if it had none.
   */
  lemma PublishNowEffect(c: Content, now: int)
    ensures var c' := ApplyStatus(c, PublishNowRequest, now);
      && !c'.draft && c'.active && c'.publishAt == c.publishAt
      && c'.author == c.author && c'.title == c.title && c'.subtitle == c.subtitle && c'.contentText == c.contentText
      && (PublishableNow(c') <==> c.publishAt.None?)
  {
    StatusUpdateFields(c, PublishNowRequest, now);
  }

  /** Scheduling sets only the publication date: a draft stays a draft and the active flag is kept. */
  lemma ScheduleEffect(c: Content, answer: Option<string>, parsed: Option<int>, now: int)
    requires SchedulePublish(answer, parsed).Send?
    ensures var c' := ApplyStatus(c, SchedulePublish(answer, parsed).request, now);
      c'.draft == c.draft && c'.active == c.active && c'.publishAt == parsed && parsed.Some?
  {
  }
}
