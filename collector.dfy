/**
 * The event collector (`collect_candidate_events`): walks a course's
 * assignments, their submissions and the submissions' comments, keeps the
 * comments written by members of the group map, and orders the resulting
 * candidate events by creation time.
 */
module Collector {
  import opened Base
  import Text
  import opened Keyer

  /** A submission: its owner and its comments (a missing comment list is
      the empty list, as `... or []` makes it). */
  datatype Submission = Submission(userId: Option<int>, comments: seq<Comment>)

  /** What fetching an assignment's submissions gave: an exception, or the
      submissions. */
  datatype Fetch = FetchFailed | Fetched(submissions: seq<Submission>)

  /** An assignment; `name` is `None` when the object has no name attribute. */
  datatype Assignment = Assignment(id: Option<int>, name: Option<string>, url: Option<string>, fetch: Fetch)

  /** A course; `name` is `None` when the object has no name attribute. */
  datatype Course = Course(id: int, name: Option<string>, assignments: seq<Assignment>)

  /** One qualifying comment together with where it was found. */
  datatype CandidateEvent = CandidateEvent(
    courseId: int,
    courseName: string,
    assignmentId: Option<int>,
    assignmentName: string,
    assignmentUrl: Option<string>,
    submissionUserId: Option<int>,
    authorId: int,
    authorName: string,
    groupName: string,
    createdAt: Option<string>,
    commentText: string,
    comment: Comment)

  /** Course-member id (as a string) to group name. */
  type GroupMap = map<string, string>

  function CourseName(course: Course): string {
    if course.name.Some? then course.name.value else "Unknown course"
  }

  function AssignmentName(a: Assignment): string {
    if a.name.Some? then a.name.value else "Assignment " + Text.OptIntToString(a.id)
  }

  /** `comment.get("author_name") or f"User {author_id}"`. */
  function AuthorName(c: Comment, authorId: int): (r: string)
    ensures r != ""
  {
    if c.authorName.Some? && c.authorName.value != "" then c.authorName.value
    else "User " + Text.IntToString(authorId)
  }

  /** `comment.get("comment") or ""`. */
  function CommentText(c: Comment): string {
    if c.text.Some? then c.text.value else ""
  }

  /** A comment is kept when it has an author whose id, as a string, is a
      key of the group map. */
  predicate Qualifies(c: Comment, groups: GroupMap) {
    c.authorId.Some? && Text.IntToString(c.authorId.value) in groups
  }

  /** The event of a candidate is attributed to the author's group. */
  predicate FromGroupMember(e: CandidateEvent, groups: GroupMap) {
    && Text.IntToString(e.authorId) in groups
    && e.groupName == groups[Text.IntToString(e.authorId)]
  }

  function MakeEvent(course: Course, a: Assignment, s: Submission, c: Comment, groups: GroupMap): (e: CandidateEvent)
    requires Qualifies(c, groups)
    ensures FromGroupMember(e, groups)
    ensures e.authorId == c.authorId.value && e.createdAt == c.createdAt && e.comment == c
  {
    var authorId := c.authorId.value;
    CandidateEvent(
      course.id, CourseName(course),
      a.id, AssignmentName(a), a.url,
      s.userId,
      authorId, AuthorName(c, authorId), groups[Text.IntToString(authorId)],
      c.createdAt, CommentText(c), c)
  }

  // ---------------------------------------------------------------------
  // The uncollected (not yet sorted) events, level by level
  // ---------------------------------------------------------------------

  function CommentEvents(course: Course, a: Assignment, s: Submission, cs: seq<Comment>, groups: GroupMap)
    : seq<CandidateEvent>
    decreases |cs|
  {
    if cs == [] then []
    else
      var c := cs[|cs| - 1];
      CommentEvents(course, a, s, cs[..|cs| - 1], groups)
        + (if Qualifies(c, groups) then [MakeEvent(course, a, s, c, groups)] else [])
  }

  function SubmissionEvents(course: Course, a: Assignment, subs: seq<Submission>, groups: GroupMap)
    : seq<CandidateEvent>
    decreases |subs|
  {
    if subs == [] then []
    else
      var s := subs[|subs| - 1];
      SubmissionEvents(course, a, subs[..|subs| - 1], groups) + CommentEvents(course, a, s, s.comments, groups)
  }

  /** An assignment whose submissions could not be fetched contributes nothing. */
  function AssignmentEvents(course: Course, a: Assignment, groups: GroupMap): seq<CandidateEvent> {
    match a.fetch
    case FetchFailed => []
    case Fetched(subs) => SubmissionEvents(course, a, subs, groups)
  }

  function CourseEvents(course: Course, assignments: seq<Assignment>, groups: GroupMap): seq<CandidateEvent>
    decreases |assignments|
  {
    if assignments == [] then []
    else
      var n := |assignments| - 1;
      CourseEvents(course, assignments[..n], groups) + AssignmentEvents(course, assignments[n], groups)
  }

  // ---------------------------------------------------------------------
  // Ordering: a stable sort by `created_at or ""`
  // ---------------------------------------------------------------------

  function SortKey(e: CandidateEvent): string {
    if e.createdAt.Some? then e.createdAt.value else ""
  }

  /** Python's order on strings: lexicographic by code point. */
  predicate StrLe(a: string, b: string)
    decreases |a|
  {
    if a == [] then true
    else if b == [] then false
    else if a[0] != b[0] then a[0] < b[0]
    else StrLe(a[1..], b[1..])
  }

  lemma {:induction false} StrLeReflexive(a: string)
    ensures StrLe(a, a)
  {
    if a != [] { StrLeReflexive(a[1..]); }
  }

  lemma {:induction false} StrLeTotal(a: string, b: string)
    ensures StrLe(a, b) || StrLe(b, a)
  {
    if a != [] && b != [] && a[0] == b[0] { StrLeTotal(a[1..], b[1..]); }
  }

  lemma {:induction false} StrLeTransitive(a: string, b: string, c: string)
    requires StrLe(a, b) && StrLe(b, c)
    ensures StrLe(a, c)
  {
    if a != [] && b != [] && c != [] && a[0] == b[0] && b[0] == c[0] {
      StrLeTransitive(a[1..], b[1..], c[1..]);
    }
  }

  lemma {:induction false} StrLeAntisymmetric(a: string, b: string)
    requires StrLe(a, b) && StrLe(b, a)
    ensures a == b
  {
    if a != [] && b != [] {
      StrLeAntisymmetric(a[1..], b[1..]);
      assert a == [a[0]] + a[1..] && b == [b[0]] + b[1..];
    }
  }

  predicate SortedByCreated(s: seq<CandidateEvent>) {
    forall i, j :: 0 <= i < j < |s| ==> StrLe(SortKey(s[i]), SortKey(s[j]))
  }

  /** Puts `e` before the first element whose key is not below its own. */
  function Insert(e: CandidateEvent, s: seq<CandidateEvent>): seq<CandidateEvent> {
    if s == [] then [e]
    else if StrLe(SortKey(e), SortKey(s[0])) then [e] + s
    else [s[0]] + Insert(e, s[1..])
  }

  /** `events.sort(key=lambda item: item.get("created_at") or "")`. */
  function SortByCreated(s: seq<CandidateEvent>): seq<CandidateEvent> {
    if s == [] then [] else Insert(s[0], SortByCreated(s[1..]))
  }

  /** The events whose sort key is `k`, in their order. */
  function WithKey(s: seq<CandidateEvent>, k: string): seq<CandidateEvent> {
    if s == [] then []
    else (if SortKey(s[0]) == k then [s[0]] else []) + WithKey(s[1..], k)
  }

  lemma {:induction false} InsertKeepsElements(e: CandidateEvent, s: seq<CandidateEvent>)
    ensures multiset(Insert(e, s)) == multiset(s) + multiset{e}
    ensures forall x :: x in Insert(e, s) <==> x == e || x in s
  {
    if s != [] && !StrLe(SortKey(e), SortKey(s[0])) {
      InsertKeepsElements(e, s[1..]);
      assert s == [s[0]] + s[1..];
    }
  }

  lemma {:induction false} InsertSorted(e: CandidateEvent, s: seq<CandidateEvent>)
    requires SortedByCreated(s)
    ensures SortedByCreated(Insert(e, s))
  {
    if s == [] {
    } else if StrLe(SortKey(e), SortKey(s[0])) {
      forall k | 0 < k < |s| ensures StrLe(SortKey(e), SortKey(s[k])) {
        StrLeTransitive(SortKey(e), SortKey(s[0]), SortKey(s[k]));
      }
      PrependSorted(e, s);
    } else {
      StrLeTotal(SortKey(e), SortKey(s[0]));
      InsertSorted(e, s[1..]);
      InsertKeepsElements(e, s[1..]);
      InsertAbove(e, s, Insert(e, s[1..]));
      PrependSorted(s[0], Insert(e, s[1..]));
    }
  }

  lemma PrependSorted(e: CandidateEvent, s: seq<CandidateEvent>)
    requires SortedByCreated(s)
    requires forall k :: 0 <= k < |s| ==> StrLe(SortKey(e), SortKey(s[k]))
    ensures SortedByCreated([e] + s)
  {
    var r := [e] + s;
    forall i, j | 0 <= i < j < |r| ensures StrLe(SortKey(r[i]), SortKey(r[j])) {
      assert r[j] == s[j - 1];
      if i > 0 {
        assert r[i] == s[i - 1];
      }
    }
  }

  /** Every element of the insertion into the tail is at least the head. */
  lemma InsertAbove(e: CandidateEvent, s: seq<CandidateEvent>, t: seq<CandidateEvent>)
    requires SortedByCreated(s) && s != []
    requires StrLe(SortKey(s[0]), SortKey(e))
    requires forall x :: x in t ==> x == e || x in s[1..]
    ensures forall k :: 0 <= k < |t| ==> StrLe(SortKey(s[0]), SortKey(t[k]))
  {
    forall k | 0 <= k < |t| ensures StrLe(SortKey(s[0]), SortKey(t[k])) {
      if t[k] != e {
        assert t[k] in s[1..];
        var m :| 0 <= m < |s[1..]| && s[1..][m] == t[k];
        assert s[m + 1] == t[k];
      }
    }
  }

  /** The sort orders the events and keeps every one of them. */
  lemma {:induction false} SortByCreatedSorts(s: seq<CandidateEvent>)
    ensures SortedByCreated(SortByCreated(s))
    ensures multiset(SortByCreated(s)) == multiset(s)
  {
    if s != [] {
      SortByCreatedSorts(s[1..]);
      InsertSorted(s[0], SortByCreated(s[1..]));
      InsertKeepsElements(s[0], SortByCreated(s[1..]));
      assert s == [s[0]] + s[1..];
    }
  }

  lemma {:induction false} InsertWithKey(e: CandidateEvent, s: seq<CandidateEvent>, k: string)
    ensures WithKey(Insert(e, s), k) == (if SortKey(e) == k then [e] else []) + WithKey(s, k)
  {
    if s == [] {
    } else if StrLe(SortKey(e), SortKey(s[0])) {
      assert ([e] + s)[1..] == s;
    } else {
      InsertWithKey(e, s[1..], k);
      if SortKey(s[0]) == k && SortKey(e) == k {
        StrLeReflexive(k);
      }
      var t := Insert(e, s[1..]);
      assert ([s[0]] + t)[1..] == t;
    }
  }

  /** The sort is stable: events with equal keys keep their relative order. */
  lemma {:induction false} SortByCreatedStable(s: seq<CandidateEvent>, k: string)
    ensures WithKey(SortByCreated(s), k) == WithKey(s, k)
  {
    if s != [] {
      SortByCreatedStable(s[1..], k);
      InsertWithKey(s[0], SortByCreated(s[1..]), k);
    }
  }

  // ---------------------------------------------------------------------
  // collect_candidate_events
  // ---------------------------------------------------------------------

  /** `collect_candidate_events`: the nested loops append every qualifying
      comment's event to one list, which is then sorted. The loop over a
      submission's comments and the loop over an assignment's submissions
      are the two methods below. */
  method CollectCandidateEvents(course: Course, groups: GroupMap) returns (events: seq<CandidateEvent>)
    ensures events == SortByCreated(CourseEvents(course, course.assignments, groups))
    ensures SortedByCreated(events)
    ensures forall e :: e in events ==> FromGroupMember(e, groups)
  {
    var collected: seq<CandidateEvent> := [];
    for i := 0 to |course.assignments|
      invariant collected == CourseEvents(course, course.assignments[..i], groups)
    {
      var a := course.assignments[i];
      CourseEventsStep(course, course.assignments, i, groups);
      match a.fetch {
        case FetchFailed =>
          // the failure is reported and the assignment skipped
        case Fetched(subs) =>
          collected := AppendSubmissionEvents(course, a, subs, groups, collected);
      }
    }
    assert course.assignments[..|course.assignments|] == course.assignments;
    events := SortByCreated(collected);
    CollectedEventsQualify(course, groups);
  }

  /** The loop over one assignment's submissions. */
  method AppendSubmissionEvents(course: Course, a: Assignment, subs: seq<Submission>, groups: GroupMap,
                                events: seq<CandidateEvent>)
    returns (collected: seq<CandidateEvent>)
    ensures collected == events + SubmissionEvents(course, a, subs, groups)
  {
    collected := events;
    for j := 0 to |subs|
      invariant collected == events + SubmissionEvents(course, a, subs[..j], groups)
    {
      SubmissionEventsStep(course, a, subs, j, groups);
      collected := AppendCommentEvents(course, a, subs[j], groups, collected);
    }
    assert subs[..|subs|] == subs;
  }

  /** The loop over one submission's comments: comments without an author,
      or whose author is not in the group map, are passed over. */
  method AppendCommentEvents(course: Course, a: Assignment, s: Submission, groups: GroupMap,
                             events: seq<CandidateEvent>)
    returns (collected: seq<CandidateEvent>)
    ensures collected == events + CommentEvents(course, a, s, s.comments, groups)
  {
    collected := events;
    for k := 0 to |s.comments|
      invariant collected == events + CommentEvents(course, a, s, s.comments[..k], groups)
    {
      var c := s.comments[k];
      CommentEventsStep(course, a, s, s.comments, k, groups);
      if c.authorId.None? {
        continue;
      }
      var authorKey := Text.IntToString(c.authorId.value);
      if authorKey !in groups {
        continue;
      }
      collected := collected + [MakeEvent(course, a, s, c, groups)];
    }
    assert s.comments[..|s.comments|] == s.comments;
  }

  lemma CommentEventsStep(course: Course, a: Assignment, s: Submission, cs: seq<Comment>, k: nat, groups: GroupMap)
    requires k < |cs|
    ensures CommentEvents(course, a, s, cs[..k + 1], groups)
            == CommentEvents(course, a, s, cs[..k], groups)
               + (if Qualifies(cs[k], groups) then [MakeEvent(course, a, s, cs[k], groups)] else [])
  {
    assert cs[..k + 1][..k] == cs[..k];
  }

  lemma SubmissionEventsStep(course: Course, a: Assignment, subs: seq<Submission>, j: nat, groups: GroupMap)
    requires j < |subs|
    ensures SubmissionEvents(course, a, subs[..j + 1], groups)
            == SubmissionEvents(course, a, subs[..j], groups) + CommentEvents(course, a, subs[j], subs[j].comments, groups)
  {
    assert subs[..j + 1][..j] == subs[..j];
  }

  lemma CourseEventsStep(course: Course, assignments: seq<Assignment>, i: nat, groups: GroupMap)
    requires i < |assignments|
    ensures CourseEvents(course, assignments[..i + 1], groups)
            == CourseEvents(course, assignments[..i], groups) + AssignmentEvents(course, assignments[i], groups)
  {
    assert assignments[..i + 1][..i] == assignments[..i];
  }

  /** The collector's output is ordered by creation time and attributes
      every event to its author's group. */
  lemma CollectedEventsQualify(course: Course, groups: GroupMap)
    ensures var events := SortByCreated(CourseEvents(course, course.assignments, groups));
            && SortedByCreated(events)
            && forall e :: e in events ==> FromGroupMember(e, groups)
  {
    var raw := CourseEvents(course, course.assignments, groups);
    CourseEventsFromGroupMembers(course, course.assignments, groups);
    SortByCreatedSorts(raw);
    forall e | e in SortByCreated(raw) ensures FromGroupMember(e, groups) {
      assert e in multiset(SortByCreated(raw));
      assert e in multiset(raw);
    }
  }

  // ---------------------------------------------------------------------
  // What the collected events are
  // ---------------------------------------------------------------------

  lemma {:induction false} CourseEventsFromGroupMembers(course: Course, assignments: seq<Assignment>, groups: GroupMap)
    ensures forall e :: e in CourseEvents(course, assignments, groups) ==> FromGroupMember(e, groups)
  {
    forall e | e in CourseEvents(course, assignments, groups) ensures FromGroupMember(e, groups) {
      CourseEventsFrom(course, assignments, groups, e);
    }
  }

  /** An event is collected exactly when it is made from a qualifying
      comment of a submission of an assignment whose fetch succeeded. */
  ghost predicate CollectedFrom(e: CandidateEvent, course: Course, assignments: seq<Assignment>, groups: GroupMap) {
    exists a, s, c ::
      && a in assignments && a.fetch.Fetched?
      && s in a.fetch.submissions
      && c in s.comments
      && Qualifies(c, groups)
      && e == MakeEvent(course, a, s, c, groups)
  }

  lemma {:induction false} CommentEventsFrom(course: Course, a: Assignment, s: Submission, cs: seq<Comment>,
                                             groups: GroupMap, e: CandidateEvent)
    ensures e in CommentEvents(course, a, s, cs, groups)
        <==> exists c :: c in cs && Qualifies(c, groups) && e == MakeEvent(course, a, s, c, groups)
    decreases |cs|
  {
    if cs != [] {
      var init, c := cs[..|cs| - 1], cs[|cs| - 1];
      assert cs == init + [c];
      CommentEventsFrom(course, a, s, init, groups, e);
    }
  }

  lemma {:induction false} SubmissionEventsFrom(course: Course, a: Assignment, subs: seq<Submission>,
                                                groups: GroupMap, e: CandidateEvent)
    ensures e in SubmissionEvents(course, a, subs, groups)
        <==> exists s, c :: s in subs && c in s.comments && Qualifies(c, groups)
                            && e == MakeEvent(course, a, s, c, groups)
    decreases |subs|
  {
    if subs != [] {
      var init, s := subs[..|subs| - 1], subs[|subs| - 1];
      assert subs == init + [s];
      SubmissionEventsFrom(course, a, init, groups, e);
      CommentEventsFrom(course, a, s, s.comments, groups, e);
      if exists s', c :: s' in subs && c in s'.comments && Qualifies(c, groups)
                         && e == MakeEvent(course, a, s', c, groups) {
        var s', c :| s' in subs && c in s'.comments && Qualifies(c, groups)
                     && e == MakeEvent(course, a, s', c, groups);
        if s' != s {
          assert s' in init;
        }
      }
    }
  }

  lemma {:induction false} CourseEventsFrom(course: Course, assignments: seq<Assignment>, groups: GroupMap,
                                            e: CandidateEvent)
    ensures e in CourseEvents(course, assignments, groups) <==> CollectedFrom(e, course, assignments, groups)
    ensures e in CourseEvents(course, assignments, groups) ==> FromGroupMember(e, groups)
    decreases |assignments|
  {
    if assignments != [] {
      var init, a := assignments[..|assignments| - 1], assignments[|assignments| - 1];
      assert assignments == init + [a];
      CourseEventsFrom(course, init, groups, e);
      if a.fetch.Fetched? {
        SubmissionEventsFrom(course, a, a.fetch.submissions, groups, e);
      }
      if CollectedFrom(e, course, assignments, groups) {
        var a', s, c :| && a' in assignments && a'.fetch.Fetched?
                        && s in a'.fetch.submissions && c in s.comments
                        && Qualifies(c, groups) && e == MakeEvent(course, a', s, c, groups);
        if a' != a {
          assert a' in init;
        }
      }
      if e in CourseEvents(course, assignments, groups) && e !in CourseEvents(course, init, groups) {
        assert e in AssignmentEvents(course, a, groups);
      }
    }
  }

  /** The collector's output: ordered by creation time, and holding exactly
      the events of the qualifying comments of the assignments it could fetch. */
  lemma CollectedEvents(course: Course, groups: GroupMap, e: CandidateEvent)
    ensures SortedByCreated(SortByCreated(CourseEvents(course, course.assignments, groups)))
    ensures e in SortByCreated(CourseEvents(course, course.assignments, groups))
        <==> CollectedFrom(e, course, course.assignments, groups)
  {
    var raw := CourseEvents(course, course.assignments, groups);
    SortByCreatedSorts(raw);
    CourseEventsFrom(course, course.assignments, groups, e);
    assert e in SortByCreated(raw) <==> e in multiset(SortByCreated(raw));
    assert e in raw <==> e in multiset(raw);
  }

  lemma CourseEventsSnoc(course: Course, xs: seq<Assignment>, a: Assignment, groups: GroupMap)
    ensures CourseEvents(course, xs + [a], groups) == CourseEvents(course, xs, groups) + AssignmentEvents(course, a, groups)
  {
    assert (xs + [a])[..|xs|] == xs;
  }

  /** A failed assignment is skipped without affecting the others: the
      events are those of the course without it. */
  lemma {:induction false} FailedAssignmentSkipped(course: Course, before: seq<Assignment>, a: Assignment,
                                                   after: seq<Assignment>, groups: GroupMap)
    requires a.fetch.FetchFailed?
    ensures CourseEvents(course, before + [a] + after, groups) == CourseEvents(course, before + after, groups)
    decreases |after|
  {
    if after == [] {
      assert before + [a] + after == before + [a];
      assert before + after == before;
      CourseEventsSnoc(course, before, a, groups);
    } else {
      var init, b := after[..|after| - 1], after[|after| - 1];
      assert before + [a] + after == (before + [a] + init) + [b] by {
        assert after == init + [b];
      }
      assert before + after == (before + init) + [b] by {
        assert after == init + [b];
      }
      CourseEventsSnoc(course, before + [a] + init, b, groups);
      CourseEventsSnoc(course, before + init, b, groups);
      FailedAssignmentSkipped(course, before, a, init, groups);
    }
  }
}
