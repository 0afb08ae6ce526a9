/** One raw GitHub event and the fact that the scanner derives from it.

    The classifier fills a freshly claimed fact with the event's common fields
    and then dispatches on the event type.  The result is one of three
    outcomes: the filled-in fact is committed (Derive), the event is dropped by
    a rollback (Discard), or the code fails on a payload object that is not
    there (Fault), an error that aborts the whole scan. */
module Events {
  import opened Wrappers

  /** Timestamps are opaque: only their identity matters here. */
  type Time = int

  /** A type name the classifier has no branch for. */
  type OtherTypeName = s: string
    | s !in {"PushEvent", "PullRequestEvent", "IssuesEvent", "IssueCommentEvent", "ReleaseEvent", "CreateEvent"}
    witness "WatchEvent"

  /** The event types the classifier dispatches on; every other type name
      is carried by `OtherType`. */
  datatype EventType =
    | PushEvent | PullRequestEvent | IssuesEvent | IssueCommentEvent | ReleaseEvent | CreateEvent
    | OtherType(name: OtherTypeName)

  /** An action name the classifier never compares against. */
  type OtherActionName = s: string | s !in {"opened", "closed", "created", "published"} witness "reopened"

  /** The payload actions the classifier compares against. */
  datatype Action = Opened | Closed | Created | Published | OtherAction(name: OtherActionName)

  /** A reference kind other than a tag. */
  type OtherRefName = s: string | s != "tag" witness "branch"

  /** The kind of reference a creation event is about. */
  datatype RefType = Tag | OtherRef(name: OtherRefName)

  datatype PullRequest = PullRequest(number: int, mergedAt: Option<Time>)
  datatype Issue = Issue(number: int)
  /** A comment's author is an object of its own; `user` is its id when present. */
  datatype Comment = Comment(id: int, user: Option<int>)
  /** A release's author is an object of its own; `author` is its id when present. */
  datatype Release = Release(id: int, author: Option<int>)

  /** The type-specific part of an event; any of it may be missing. */
  datatype Payload = Payload(
    action: Option<Action>,
    pullRequest: Option<PullRequest>,
    issue: Option<Issue>,
    comment: Option<Comment>,
    release: Option<Release>,
    refType: Option<RefType>,
    refName: Option<string>)

  datatype Event = Event(
    id: int,
    eventType: EventType,
    createdAt: Time,
    repoId: int,
    actor: Option<int>,
    payload: Payload)

  /** A record of the fact store: every attribute may be unset. */
  datatype Fact = Fact(
    eventId: Option<int>,
    when: Option<Time>,
    eventType: Option<EventType>,
    repository: Option<int>,
    who: Option<int>,
    what: Option<string>,
    issue: Option<int>,
    releaseId: Option<int>,
    tag: Option<string>)

  datatype Outcome = Derive(fact: Fact) | Discard | Fault

  /** The record that an insert-if-absent creates: only its event id is set. */
  function Claim(id: int): Fact {
    Fact(Some(id), None, None, None, None, None, None, None, None)
  }

  /** The event carries a published release; only then is `who` the release author. */
  predicate IsPublishedRelease(e: Event) {
    e.eventType == ReleaseEvent && e.payload.action == Some(Published)
  }

  /** Fills the claimed record `claim` from event `e`, or discards the event. */
  function FillUp(claim: Fact, e: Event): (r: Outcome)
    // every derived fact keeps the claimed id and carries the common fields
    ensures r.Derive? ==>
      && r.fact.eventId == claim.eventId
      && r.fact.when == Some(e.createdAt)
      && r.fact.eventType == Some(e.eventType)
      && r.fact.repository == Some(e.repoId)
    // the issue number is set only from a pull request or an issue
    ensures r.Derive? ==>
      r.fact.issue == (if e.eventType == PullRequestEvent && e.payload.pullRequest.Some?
                       then Some(e.payload.pullRequest.value.number)
                       else if e.eventType == IssuesEvent && e.payload.issue.Some?
                       then Some(e.payload.issue.value.number)
                       else claim.issue)
    // the release id is set only from a release
    ensures r.Derive? ==>
      r.fact.releaseId == (if e.eventType == ReleaseEvent && e.payload.release.Some?
                           then Some(e.payload.release.value.id)
                           else claim.releaseId)
    // the tag is set only from the creation of a tag
    ensures r.Derive? ==>
      r.fact.tag == (if e.eventType == CreateEvent && e.payload.refType == Some(Tag)
                     then e.payload.refName
                     else claim.tag)
    ensures r.Derive? && !IsPublishedRelease(e) ==>
      r.fact.who == (if e.actor.Some? then e.actor else claim.who)
    // only four event types can ever produce a fact
    ensures r.Derive? ==>
      e.eventType in {PullRequestEvent, IssuesEvent, ReleaseEvent, CreateEvent}
    // pushes, comments and every type outside the dispatch never produce a fact
    ensures e.eventType == PushEvent ==> r.Discard?
    ensures e.eventType.OtherType? ==> r.Discard?
    ensures e.eventType == IssueCommentEvent ==>
      (r.Fault? <==>
         || e.payload.issue.None?
         || (e.payload.action == Some(Created) &&
             (e.payload.comment.None? || e.payload.comment.value.user.None?)))
    ensures e.eventType == IssueCommentEvent ==> !r.Derive?
    // pull requests: only closed ones, merged iff merged_at is set
    ensures e.eventType == PullRequestEvent ==>
      && (r.Fault? <==> e.payload.pullRequest.None?)
      && (r.Derive? <==> e.payload.pullRequest.Some? && e.payload.action == Some(Closed))
    ensures e.eventType == PullRequestEvent && r.Derive? ==>
      && r.fact.issue == Some(e.payload.pullRequest.value.number)
      && r.fact.what == Some(if e.payload.pullRequest.value.mergedAt.Some?
                             then "pull-was-merged" else "pull-was-closed")
    // issues: always a fact; `what` only for the two known actions
    ensures e.eventType == IssuesEvent ==>
      && (r.Fault? <==> e.payload.issue.None?)
      && (r.Derive? <==> e.payload.issue.Some?)
    ensures e.eventType == IssuesEvent && r.Derive? ==>
      && r.fact.issue == Some(e.payload.issue.value.number)
      && r.fact.what == (if e.payload.action == Some(Closed) then Some("issue-was-closed")
                         else if e.payload.action == Some(Opened) then Some("issue-was-opened")
                         else claim.what)
    // releases: a fact unless the release or a published release's author is missing
    ensures e.eventType == ReleaseEvent ==>
      (r.Fault? <==>
         || e.payload.release.None?
         || (e.payload.action == Some(Published) && e.payload.release.value.author.None?))
    ensures e.eventType == ReleaseEvent ==> !r.Discard?
    ensures e.eventType == ReleaseEvent && r.Derive? ==>
      && r.fact.releaseId == Some(e.payload.release.value.id)
      && (IsPublishedRelease(e) ==>
            r.fact.what == Some("release-published") && r.fact.who == e.payload.release.value.author)
      && (!IsPublishedRelease(e) ==> r.fact.what == claim.what)
    // creations: always a fact; a tag only when the ref type is `tag`
    ensures e.eventType == CreateEvent ==> r.Derive?
    ensures e.eventType == CreateEvent && r.Derive? ==>
      if e.payload.refType == Some(Tag)
      then r.fact.what == Some("tag-was-created") && r.fact.tag == e.payload.refName
      else r.fact.what == claim.what && r.fact.tag == claim.tag
  {
    var common := claim.(
      when := Some(e.createdAt),
      eventType := Some(e.eventType),
      repository := Some(e.repoId),
      who := if e.actor.Some? then e.actor else claim.who);
    if e.eventType == PushEvent then
      Discard
    else if e.eventType == PullRequestEvent then
      match e.payload.pullRequest
      case None => Fault
      case Some(pr) =>
        if e.payload.action != Some(Closed) then Discard
        else Derive(common.(
          issue := Some(pr.number),
          what := Some(if pr.mergedAt.Some? then "pull-was-merged" else "pull-was-closed")))
    else if e.eventType == IssuesEvent then
      match e.payload.issue
      case None => Fault
      case Some(issue) =>
        var f := common.(issue := Some(issue.number));
        if e.payload.action == Some(Closed) then Derive(f.(what := Some("issue-was-closed")))
        else if e.payload.action == Some(Opened) then Derive(f.(what := Some("issue-was-opened")))
        else Derive(f)
    else if e.eventType == IssueCommentEvent then
      match e.payload.issue
      case None => Fault
      case Some(_) =>
        if e.payload.action == Some(Created) then
          match e.payload.comment
          case None => Fault
          case Some(c) => if c.user.None? then Fault else Discard
        else Discard
    else if e.eventType == ReleaseEvent then
      match e.payload.release
      case None => Fault
      case Some(rel) =>
        var f := common.(releaseId := Some(rel.id));
        if e.payload.action == Some(Published) then
          match rel.author
          case None => Fault
          case Some(author) => Derive(f.(what := Some("release-published"), who := Some(author)))
        else Derive(f)
    else if e.eventType == CreateEvent then
      if e.payload.refType == Some(Tag)
      then Derive(common.(what := Some("tag-was-created"), tag := e.payload.refName))
      else Derive(common)
    else
      Discard
  }
}
