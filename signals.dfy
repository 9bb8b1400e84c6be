/**
 * The post-save receiver that announces published posts to subscribers. The
 * dispatcher it calls is outside this model: its outcome is an input, either a
 * delivery report or an exception, and the receiver absorbs both into log lines.
 */
module Signals {
  import opened Models

  /** What one call of the subscriber dispatcher did. */
  datatype DispatchOutcome =
    | Delivered(successCount: nat, failureCount: nat, errors: seq<string>)
    | Raised(message: string)

  /** The log lines the receiver writes, one constructor per message shape. */
  datatype LogLine =
    | NewPublished(title: string)
    | UpdatedPublished(title: string)
    | Results(title: string, sent: nat, failed: nat)
    | DispatchError(error: string)
    | SendFailed(title: string, message: string)

  /** What the receiver did for one save: whether it called the dispatcher, and what it logged. */
  datatype Reaction = Reaction(dispatched: bool, log: seq<LogLine>)

  /**
   * `send_notifications_for_post`: one dispatch. A delivery report is logged as a
   * summary line followed by one line per reported error; an exception is
   * caught and logged, so the helper always returns normally.
   */
  function SendNotificationsForPost(post: Post, outcome: DispatchOutcome): (log: seq<LogLine>)
    ensures outcome.Raised? ==> log == [SendFailed(post.title, outcome.message)]
    ensures outcome.Delivered? ==>
      |log| == |outcome.errors| + 1
      && log[0] == Results(post.title, outcome.successCount, outcome.failureCount)
      && forall i :: 0 <= i < |outcome.errors| ==> log[i + 1] == DispatchError(outcome.errors[i])
  {
    match outcome
    case Raised(message) => [SendFailed(post.title, message)]
    case Delivered(sent, failed, errors) =>
      [Results(post.title, sent, failed)] + ErrorLines(errors)
  }

  function ErrorLines(errors: seq<string>): (r: seq<LogLine>)
    ensures |r| == |errors| && forall i :: 0 <= i < |errors| ==> r[i] == DispatchError(errors[i])
  {
    seq(|errors|, i requires 0 <= i < |errors| => DispatchError(errors[i]))
  }

  /**
   * `send_post_notification_on_publish`: on every save of a published post,
   * new or not, the dispatcher is called once; on any other save nothing
   * happens. The first log line says which of the two kinds of save it was.
   */
  function OnPostSaved(post: Post, created: bool, outcome: DispatchOutcome): (r: Reaction)
    ensures r.dispatched <==> post.status == Published
    ensures !r.dispatched ==> r.log == []
    ensures r.dispatched ==> |r.log| >= 1
    ensures r.dispatched ==> r.log[1..] == SendNotificationsForPost(post, outcome)
    ensures r.dispatched && created ==> r.log[0] == NewPublished(post.title)
    ensures r.dispatched && !created ==> r.log[0] == UpdatedPublished(post.title)
  {
    if post.status != Published then Reaction(false, [])
    else if created then Reaction(true, [NewPublished(post.title)] + SendNotificationsForPost(post, outcome))
    else Reaction(true, [UpdatedPublished(post.title)] + SendNotificationsForPost(post, outcome))
  }

  /** `manually_send_post_notifications`: the helper, whatever the post's status. */
  function ManuallySendPostNotifications(post: Post, outcome: DispatchOutcome): (r: Reaction)
    ensures r.dispatched
    ensures r.log == SendNotificationsForPost(post, outcome)
  {
    Reaction(true, SendNotificationsForPost(post, outcome))
  }

  /**
   * The manual trigger does for a published post exactly what a save does,
   * apart from the one announcement line.
   */
  lemma ManualMatchesAutomatic(post: Post, created: bool, outcome: DispatchOutcome)
    requires post.status == Published
    ensures OnPostSaved(post, created, outcome).dispatched == ManuallySendPostNotifications(post, outcome).dispatched
    ensures OnPostSaved(post, created, outcome).log[1..] == ManuallySendPostNotifications(post, outcome).log
  {
  }

  /** One save seen by the receiver: the instance, the `created` flag and what the dispatcher did. */
  datatype SaveEvent = SaveEvent(post: Post, created: bool, outcome: DispatchOutcome)

  /** How many times the receiver calls the dispatcher over a run of saves. */
  function DispatchCount(events: seq<SaveEvent>): nat
  {
    if events == [] then 0
    else
      var e := events[|events| - 1];
      DispatchCount(events[..|events| - 1]) + if OnPostSaved(e.post, e.created, e.outcome).dispatched then 1 else 0
  }

  /** The saves of a run that were made in published status. */
  function PublishedSaves(events: seq<SaveEvent>): (r: seq<SaveEvent>)
    ensures forall e :: e in r <==> e in events && e.post.status == Published
    ensures forall e :: multiset(r)[e] == if e.post.status == Published then multiset(events)[e] else 0
  {
    if events == [] then []
    else
      var e := events[|events| - 1];
      assert events == events[..|events| - 1] + [e];
      PublishedSaves(events[..|events| - 1]) + (if e.post.status == Published then [e] else [])
  }

  /**
   * Nothing is deduplicated: the dispatcher is called once for every save made
   * in published status, however many times the same post is saved, whether
   * the save created it, and whatever earlier dispatches did.
   */
  lemma {:induction false} DispatchOncePerPublishedSave(events: seq<SaveEvent>)
    ensures DispatchCount(events) == |PublishedSaves(events)|
  {
    if events != [] {
      DispatchOncePerPublishedSave(events[..|events| - 1]);
    }
  }
}
