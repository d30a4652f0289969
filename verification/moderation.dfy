/**
 * Readers' comments and "dangerous content" reports on a post, and their
 * soft deletion. Every handler answers either with a not-found page or
 * with a redirect back to the post carrying a status in the query string.
 *
 * Reports are kept in creation order, so the most recent one is the last.
 * The rule that a reader has at most one active report per post is kept by
 * the handlers alone; `AtMostOneActive` states it and the lemmas below show
 * every handler preserves it.
 */
module Moderation {
  import opened Wrappers
  import opened Text

  /** The requesting user: anonymous, or signed in with a (possibly empty)
      nickname from their settings. */
  datatype User = Anonymous | Member(id: nat, nickname: string)

  /** A soft-deletable row: active, or deleted at a time. */
  datatype Lifecycle = Active | Deleted(at: int)

  /** The part of a post the handlers read, keyed by its `uid`. */
  datatype PostRef = PostRef(slug: string, commentsEnabled: bool)

  datatype Comment = Comment(
    post: string,
    user: nat,
    content: string,
    useEmailAsName: bool,
    useNickname: bool,
    state: Lifecycle)

  datatype Report = Report(
    post: string,
    user: nat,
    comment: string,
    useNickname: bool,
    state: Lifecycle)

  /** The status a redirect carries back to the post. */
  datatype Status =
    | LoginRequired
    | MissingContent
    | InvalidContent
    | CommentAdded
    | MissingReportComment
    | InvalidReportComment
    | AlreadyReported
    | ReportAdded
    | SubmissionFailed
    | ReportDeleted
    | ReportDeleteFailed
    | CommentDeleted

  function StatusQuery(s: Status): string {
    match s
    case LoginRequired => "error=login_required"
    case MissingContent => "error=missing_content"
    case InvalidContent => "error=invalid_content"
    case CommentAdded => "comment_added=true"
    case MissingReportComment => "error=missing_report_comment"
    case InvalidReportComment => "error=invalid_report_comment"
    case AlreadyReported => "error=already_reported"
    case ReportAdded => "report_added=true"
    case SubmissionFailed => "error=submission_failed"
    case ReportDeleted => "report_deleted=true"
    case ReportDeleteFailed => "error=report_delete_failed"
    case CommentDeleted => "comment_deleted=true"
  }

  /** Every outcome but the four successes carries `error=` in the query. */
  lemma StatusQueryKinds(s: Status)
    ensures StartsWith(StatusQuery(s), "error=") <==>
      !(s.CommentAdded? || s.ReportAdded? || s.ReportDeleted? || s.CommentDeleted?)
  {
    match s
    case CommentAdded => assert StatusQuery(s)[0] != 'e';
    case ReportAdded => assert StatusQuery(s)[0] != 'e';
    case ReportDeleted => assert StatusQuery(s)[0] != 'e';
    case CommentDeleted => assert StatusQuery(s)[0] != 'e';
    case _ =>
  }

  datatype Outcome = NotFound | Redirect(slug: string, status: Status)

  /** No two statuses share a query string, so the post page can tell
      every outcome apart. */
  lemma StatusQueryInjective(a: Status, b: Status)
    requires StatusQuery(a) == StatusQuery(b)
    ensures a == b
  {
  }

  /** The redirect target, `/<slug>/?<status>`. */
  function Location(o: Outcome): (r: string)
    requires o.Redirect?
    ensures StartsWith(r, "/" + o.slug + "/?")
    ensures r[|o.slug| + 3..] == StatusQuery(o.status)
  {
    var prefix := "/" + o.slug + "/?";
    assert (prefix + StatusQuery(o.status))[..|prefix|] == prefix;
    prefix + StatusQuery(o.status)
  }

  /** Two redirects to the same post land on the same address only when
      they carry the same status. */
  lemma LocationDeterminesStatus(a: Outcome, b: Outcome)
    requires a.Redirect? && b.Redirect? && a.slug == b.slug
    requires Location(a) == Location(b)
    ensures a.status == b.status
  {
    StatusQueryInjective(a.status, b.status);
  }

  // ---------------------------------------------------------------- validation

  const MinText := 5
  const MaxComment := 1000
  const MaxReport := 100

  /** The checks on a comment's stripped text, in order. */
  function CommentTextStatus(content: string): (r: Option<Status>)
    ensures r == None <==> MinText <= |Strip(content)| <= MaxComment
    ensures r == Some(MissingContent) <==> Strip(content) == ""
    ensures r.Some? ==> r == Some(MissingContent) || r == Some(InvalidContent)
  {
    var c := Strip(content);
    if c == "" then Some(MissingContent)
    else if |c| < MinText || |c| > MaxComment then Some(InvalidContent)
    else None
  }

  /** The checks on a report's stripped text, in order. */
  function ReportTextStatus(comment: string): (r: Option<Status>)
    ensures r == None <==> MinText <= |Strip(comment)| <= MaxReport
    ensures r == Some(MissingReportComment) <==> Strip(comment) == ""
    ensures r.Some? ==> r == Some(MissingReportComment) || r == Some(InvalidReportComment)
  {
    var c := Strip(comment);
    if c == "" then Some(MissingReportComment)
    else if |c| < MinText || |c| > MaxReport then Some(InvalidReportComment)
    else None
  }

  /** `display_option == 'nickname' and request.user.settings.nickname`. */
  function UseNickname(display: string, nickname: string): bool {
    display == "nickname" && nickname != ""
  }

  /** The form of `add_comment`. Absent fields are `None`. */
  datatype CommentForm = CommentForm(
    content: Option<string>,
    displayOption: Option<string>,
    legacyUseEmail: Option<string>)

  /** The display mode: `display_option`, default `email`, overridden to
      `email` by the legacy `use_email_as_name=on`. */
  function DisplayOption(form: CommentForm): (r: string)
    ensures form.legacyUseEmail == Some("on") ==> r == "email"
    ensures r != "email" ==> form.legacyUseEmail != Some("on") && form.displayOption == Some(r)
    ensures r == "email" <==>
      form.legacyUseEmail == Some("on") || form.displayOption in {None, Some("email")}
  {
    if form.legacyUseEmail == Some("on") then "email" else form.displayOption.GetOr("email")
  }

  // ---------------------------------------------------------------- comments

  /** `add_comment`. `storeFails` stands for the row insert raising. */
  function AddComment(posts: map<string, PostRef>, comments: seq<Comment>, user: User,
                      isPost: bool, uid: string, form: CommentForm, storeFails: bool)
    : (r: (Outcome, seq<Comment>))
    ensures r.0 == NotFound <==>
      !isPost || uid !in posts || (user.Member? && !posts[uid].commentsEnabled)
    ensures r.0.Redirect? ==> r.0.slug == posts[uid].slug
    ensures r.0.Redirect? && r.0.status == LoginRequired <==> isPost && uid in posts && user.Anonymous?
    ensures r.0.Redirect? && r.0.status == CommentAdded <==>
      && isPost && uid in posts && user.Member? && posts[uid].commentsEnabled
      && CommentTextStatus(form.content.GetOr("")) == None && !storeFails
    ensures r.0.Redirect? && r.0.status == CommentAdded ==>
      var c := Strip(form.content.GetOr(""));
      && r.1 == comments + [Comment(uid, user.id, c, DisplayOption(form) == "email",
                                    UseNickname(DisplayOption(form), user.nickname), Active)]
      && MinText <= |r.1[|comments|].content| <= MaxComment
    ensures !(r.0.Redirect? && r.0.status == CommentAdded) ==> r.1 == comments
  {
    if !isPost || uid !in posts then (NotFound, comments)
    else
      var post := posts[uid];
      match user
      case Anonymous => (Redirect(post.slug, LoginRequired), comments)
      case Member(id, nickname) =>
        if !post.commentsEnabled then (NotFound, comments)
        else
          var content := form.content.GetOr("");
          match CommentTextStatus(content)
          case Some(s) => (Redirect(post.slug, s), comments)
          case None =>
            if storeFails then (Redirect(post.slug, SubmissionFailed), comments)
            else
              var display := DisplayOption(form);
              var c := Comment(uid, id, Strip(content), display == "email", UseNickname(display, nickname), Active);
              (Redirect(post.slug, CommentAdded), comments + [c])
  }

  /** Comment rows point at existing posts. */
  predicate CommentsReferToPosts(posts: map<string, PostRef>, comments: seq<Comment>) {
    forall i :: 0 <= i < |comments| ==> comments[i].post in posts
  }

  /** `delete_comment`: only the author may soft-delete, and the comment is
      found whether or not it was already deleted. */
  function DeleteComment(posts: map<string, PostRef>, comments: seq<Comment>, user: User,
                         isPost: bool, id: int, now: int): (r: (Outcome, seq<Comment>))
    requires CommentsReferToPosts(posts, comments)
    ensures r.0 == NotFound <==>
      !isPost || !(0 <= id < |comments|) || user.Anonymous? || user.id != comments[id].user
    ensures r.0.Redirect? ==> r.0 == Redirect(posts[comments[id].post].slug, CommentDeleted)
    ensures |r.1| == |comments|
    ensures forall i :: 0 <= i < |comments| && i != id ==> r.1[i] == comments[i]
    ensures r.0.Redirect? ==> r.1[id] == comments[id].(state := Deleted(now))
    ensures r.0 == NotFound ==> r.1 == comments
  {
    if !isPost || !(0 <= id < |comments|) then (NotFound, comments)
    else
      var c := comments[id];
      if user.Anonymous? || user.id != c.user then (NotFound, comments)
      else (Redirect(posts[c.post].slug, CommentDeleted), comments[id := c.(state := Deleted(now))])
  }

  // ---------------------------------------------------------------- reports

  predicate IsActive(rep: Report, uid: string, user: nat) {
    rep.post == uid && rep.user == user && rep.state == Active
  }

  /** `post.user_has_active_report(user)`. */
  predicate HasActiveReport(reports: seq<Report>, uid: string, user: nat) {
    exists i :: 0 <= i < |reports| && IsActive(reports[i], uid, user)
  }

  /** The invariant: no two active reports by one user on one post. */
  predicate AtMostOneActive(reports: seq<Report>) {
    forall i, j :: 0 <= i < j < |reports| && reports[i].state == Active && reports[j].state == Active
      ==> reports[i].post != reports[j].post || reports[i].user != reports[j].user
  }

  /** The most recent active report by `user` on `uid`: the highest index. */
  function LastActive(reports: seq<Report>, uid: string, user: nat): (r: Option<nat>)
    ensures r.Some? ==> r.value < |reports| && IsActive(reports[r.value], uid, user)
    ensures r.Some? ==> forall j :: r.value < j < |reports| ==> !IsActive(reports[j], uid, user)
    ensures r.None? <==> !HasActiveReport(reports, uid, user)
    decreases |reports|
  {
    if |reports| == 0 then None
    else
      var n := |reports| - 1;
      if IsActive(reports[n], uid, user) then Some(n)
      else
        var r := LastActive(reports[..n], uid, user);
        assert forall i :: 0 <= i < n ==> reports[..n][i] == reports[i];
        r
  }

  /** `report_dangerous`. `storeFails` stands for the row insert raising. */
  function ReportDangerous(posts: map<string, PostRef>, reports: seq<Report>, user: User,
                           isPost: bool, uid: string, comment: Option<string>,
                           displayOption: Option<string>, storeFails: bool)
    : (r: (Outcome, seq<Report>))
    ensures r.0 == NotFound <==> !isPost || uid !in posts
    ensures r.0.Redirect? ==> r.0.slug == posts[uid].slug
    ensures r.0.Redirect? && r.0.status == LoginRequired <==> isPost && uid in posts && user.Anonymous?
    ensures r.0.Redirect? && r.0.status == AlreadyReported <==>
      && isPost && uid in posts && user.Member?
      && ReportTextStatus(comment.GetOr("")) == None && HasActiveReport(reports, uid, user.id)
    ensures r.0.Redirect? && r.0.status == ReportAdded <==>
      && isPost && uid in posts && user.Member?
      && ReportTextStatus(comment.GetOr("")) == None && !HasActiveReport(reports, uid, user.id)
      && !storeFails
    ensures r.0.Redirect? && r.0.status == ReportAdded ==>
      r.1 == reports + [Report(uid, user.id, Strip(comment.GetOr("")),
                               UseNickname(displayOption.GetOr("email"), user.nickname), Active)]
    ensures !(r.0.Redirect? && r.0.status == ReportAdded) ==> r.1 == reports
  {
    if !isPost || uid !in posts then (NotFound, reports)
    else
      var post := posts[uid];
      match user
      case Anonymous => (Redirect(post.slug, LoginRequired), reports)
      case Member(id, nickname) =>
        var text := comment.GetOr("");
        match ReportTextStatus(text)
        case Some(s) => (Redirect(post.slug, s), reports)
        case None =>
          if HasActiveReport(reports, uid, id) then (Redirect(post.slug, AlreadyReported), reports)
          else if storeFails then (Redirect(post.slug, SubmissionFailed), reports)
          else
            var rep := Report(uid, id, Strip(text), UseNickname(displayOption.GetOr("email"), nickname), Active);
            (Redirect(post.slug, ReportAdded), reports + [rep])
  }

  /** `delete_report`: soft-deletes the requester's most recent active
      report on the post. No such report, or an anonymous requester, ends
      in the handler's own catch-all and `report_delete_failed`. */
  function DeleteReport(posts: map<string, PostRef>, reports: seq<Report>, user: User,
                        isPost: bool, uid: string, now: int): (r: (Outcome, seq<Report>))
    ensures r.0 == NotFound <==> !isPost || uid !in posts
    ensures r.0.Redirect? ==> r.0.slug == posts[uid].slug
    ensures r.0.Redirect? ==> r.0.status == ReportDeleted || r.0.status == ReportDeleteFailed
    ensures r.0.Redirect? && r.0.status == ReportDeleted <==>
      isPost && uid in posts && user.Member? && HasActiveReport(reports, uid, user.id)
    ensures |r.1| == |reports|
    ensures r.0.Redirect? && r.0.status == ReportDeleted ==>
      var k := LastActive(reports, uid, user.id).value;
      && r.1 == reports[k := reports[k].(state := Deleted(now))]
    ensures !(r.0.Redirect? && r.0.status == ReportDeleted) ==> r.1 == reports
  {
    if !isPost || uid !in posts then (NotFound, reports)
    else
      var slug := posts[uid].slug;
      match user
      case Anonymous => (Redirect(slug, ReportDeleteFailed), reports)
      case Member(id, _) =>
        match LastActive(reports, uid, id)
        case None => (Redirect(slug, ReportDeleteFailed), reports)
        case Some(k) => (Redirect(slug, ReportDeleted), reports[k := reports[k].(state := Deleted(now))])
  }

  // ---------------------------------------------------------------- lifecycle

  /** Reporting keeps the invariant. */
  lemma ReportKeepsInvariant(posts: map<string, PostRef>, reports: seq<Report>, user: User,
                             isPost: bool, uid: string, comment: Option<string>,
                             displayOption: Option<string>, storeFails: bool)
    requires AtMostOneActive(reports)
    ensures AtMostOneActive(ReportDangerous(posts, reports, user, isPost, uid, comment, displayOption, storeFails).1)
  {
    var r := ReportDangerous(posts, reports, user, isPost, uid, comment, displayOption, storeFails);
    if r.0.Redirect? && r.0.status == ReportAdded {
      var s := r.1;
      var n := |reports|;
      forall i, j | 0 <= i < j < |s| && s[i].state == Active && s[j].state == Active
        ensures s[i].post != s[j].post || s[i].user != s[j].user
      {
        if j == n {
          assert s[i] == reports[i];
          assert !IsActive(reports[i], uid, user.id);
        } else {
          assert s[i] == reports[i] && s[j] == reports[j];
        }
      }
    }
  }

  /** Deleting a report keeps the invariant. */
  lemma DeleteKeepsInvariant(posts: map<string, PostRef>, reports: seq<Report>, user: User,
                             isPost: bool, uid: string, now: int)
    requires AtMostOneActive(reports)
    ensures AtMostOneActive(DeleteReport(posts, reports, user, isPost, uid, now).1)
  {
    var s := DeleteReport(posts, reports, user, isPost, uid, now).1;
    forall i, j | 0 <= i < j < |s| && s[i].state == Active && s[j].state == Active
      ensures s[i].post != s[j].post || s[i].user != s[j].user
    {
      assert s[i].state == Active ==> s[i] == reports[i];
      assert s[j].state == Active ==> s[j] == reports[j];
    }
  }

  /** With the invariant, the report `delete_report` removes is the only
      active one: afterwards the user has no active report on the post. */
  lemma DeleteLeavesNoActive(posts: map<string, PostRef>, reports: seq<Report>, u: nat, uid: string, now: int)
    requires AtMostOneActive(reports)
    requires uid in posts
    ensures !HasActiveReport(DeleteReport(posts, reports, Member(u, ""), true, uid, now).1, uid, u)
  {
    var s := DeleteReport(posts, reports, Member(u, ""), true, uid, now).1;
    match LastActive(reports, uid, u)
    case None =>
    case Some(k) =>
      forall i | 0 <= i < |s| ensures !IsActive(s[i], uid, u) {
        if i < k {
          assert s[i] == reports[i];
          assert reports[i].state == Active ==>
            reports[i].post != reports[k].post || reports[i].user != reports[k].user;
        } else if i > k {
          assert s[i] == reports[i];
        }
      }
  }

  /** A report followed by its withdrawal leaves the reports as they were,
      plus one deleted row. */
  lemma ReportThenDelete(posts: map<string, PostRef>, reports: seq<Report>, u: nat, nick: string,
                         uid: string, comment: string, now: int)
    requires uid in posts && !HasActiveReport(reports, uid, u)
    requires ReportTextStatus(comment) == None
    ensures var added := ReportDangerous(posts, reports, Member(u, nick), true, uid, Some(comment), None, false);
            var removed := DeleteReport(posts, added.1, Member(u, nick), true, uid, now);
            && added.0 == Redirect(posts[uid].slug, ReportAdded)
            && removed.0 == Redirect(posts[uid].slug, ReportDeleted)
            && removed.1 == reports + [Report(uid, u, Strip(comment), false, Deleted(now))]
  {
    var rep := Report(uid, u, Strip(comment), false, Active);
    assert ReportDangerous(posts, reports, Member(u, nick), true, uid, Some(comment), None, false)
           == (Redirect(posts[uid].slug, ReportAdded), reports + [rep]);
    DeleteNewest(posts, reports, rep, u, nick, uid, now);
  }

  /** A delete right after a report was appended takes back that report. */
  lemma DeleteNewest(posts: map<string, PostRef>, reports: seq<Report>, rep: Report, u: nat,
                     nick: string, uid: string, now: int)
    requires uid in posts && IsActive(rep, uid, u)
    ensures DeleteReport(posts, reports + [rep], Member(u, nick), true, uid, now)
            == (Redirect(posts[uid].slug, ReportDeleted), reports + [rep.(state := Deleted(now))])
  {
    var s := reports + [rep];
    assert IsActive(s[|reports|], uid, u);
    assert LastActive(s, uid, u) == Some(|reports|);
    assert s[|reports| := rep.(state := Deleted(now))] == reports + [rep.(state := Deleted(now))];
  }

  /** Once a report is withdrawn, the same user can report the post again. */
  lemma DeleteThenReport(posts: map<string, PostRef>, reports: seq<Report>, u: nat, nick: string,
                         uid: string, comment: string, now: int)
    requires AtMostOneActive(reports)
    requires uid in posts && HasActiveReport(reports, uid, u)
    requires ReportTextStatus(comment) == None
    ensures var removed := DeleteReport(posts, reports, Member(u, nick), true, uid, now);
            && removed.0 == Redirect(posts[uid].slug, ReportDeleted)
            && ReportDangerous(posts, removed.1, Member(u, nick), true, uid, Some(comment), None, false).0
               == Redirect(posts[uid].slug, ReportAdded)
  {
    DeleteLeavesNoActive(posts, reports, u, uid, now);
    assert DeleteReport(posts, reports, Member(u, nick), true, uid, now).1
        == DeleteReport(posts, reports, Member(u, ""), true, uid, now).1;
  }

  /** A second report while the first is active is refused and changes nothing. */
  lemma SecondReportRefused(posts: map<string, PostRef>, reports: seq<Report>, u: nat, nick: string,
                            uid: string, first: string, second: string)
    requires uid in posts && !HasActiveReport(reports, uid, u)
    requires ReportTextStatus(first) == None && ReportTextStatus(second) == None
    ensures var added := ReportDangerous(posts, reports, Member(u, nick), true, uid, Some(first), None, false);
            ReportDangerous(posts, added.1, Member(u, nick), true, uid, Some(second), None, false)
              == (Redirect(posts[uid].slug, AlreadyReported), added.1)
  {
    var added := ReportDangerous(posts, reports, Member(u, nick), true, uid, Some(first), None, false);
    assert IsActive(added.1[|reports|], uid, u);
  }

  /** Report text of 3 characters is refused, 100 accepted, 101 refused. */
  lemma ReportLengthBoundaries(c: string)
    requires c == [] || (!IsSpace(c[0]) && !IsSpace(c[|c| - 1]))
    ensures |c| == 3 ==> ReportTextStatus(c) == Some(InvalidReportComment)
    ensures |c| == 100 ==> ReportTextStatus(c) == None
    ensures |c| == 101 ==> ReportTextStatus(c) == Some(InvalidReportComment)
  {
    StripFixed(c);
    var n := |Strip(c)|;
    assert n == |c|;
  }

  /** Comment text is accepted from 5 up to 1000 characters after stripping. */
  lemma CommentLengthBoundaries(c: string)
    requires c == [] || (!IsSpace(c[0]) && !IsSpace(c[|c| - 1]))
    ensures |c| == 4 ==> CommentTextStatus(c) == Some(InvalidContent)
    ensures |c| == 5 || |c| == 1000 ==> CommentTextStatus(c) == None
    ensures |c| == 1001 ==> CommentTextStatus(c) == Some(InvalidContent)
  {
    StripFixed(c);
    var n := |Strip(c)|;
    assert n == |c|;
  }

  /** Surrounding whitespace does not count towards a report's length. */
  lemma ReportPaddingIgnored(c: string, w: string)
    requires AllSpace(w)
    ensures ReportTextStatus(w + c + w) == ReportTextStatus(c)
  {
    StripTrailingSpace(w + c, w);
    StripLeadingSpace(w, c);
  }
}
