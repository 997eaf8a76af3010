/**
 * The message text of one candidate event (`build_teams_text`): eight
 * lines, or nine when the assignment has a link, joined by newlines.
 */
module Format {
  import opened Base
  import Text
  import opened Collector

  /** `t` contains `s` as a contiguous piece (Python's `s in t`). */
  ghost predicate IsInfix(s: string, t: string) {
    exists i :: InfixAt(s, t, i)
  }

  /** `s` occurs in `t` starting at index `i`. */
  predicate InfixAt(s: string, t: string, i: int) {
    0 <= i <= |t| - |s| && t[i..i + |s|] == s
  }

  /** Python truthiness of an optional string: present and not empty. */
  predicate IsSet(v: Option<string>) {
    v.Some? && v.value != ""
  }

  /** `event['created_at'] or 'unknown'`. */
  function CreatedText(e: CandidateEvent): string {
    if IsSet(e.createdAt) then e.createdAt.value else "unknown"
  }

  /** `event['comment_text'] or "(empty)"`. */
  function BodyText(e: CandidateEvent): string {
    if e.commentText != "" then e.commentText else "(empty)"
  }

  const Header := "New Canvas student comment"

  /** The ` (ID: ...)` tail written after a name. */
  function IdTail(id: string): string {
    " (ID: " + id + ")"
  }

  const CommentLabel := "Comment:"

  /** The line that links to the assignment. */
  function LinkLine(url: string): string {
    "Assignment link: " + url
  }

  function TeamsLines(e: CandidateEvent): seq<string> {
    [ Header,
      "Course: " + e.courseName + IdTail(Text.IntToString(e.courseId)),
      "Assignment: " + e.assignmentName + IdTail(Text.OptIntToString(e.assignmentId)),
      "Author: " + e.authorName + IdTail(Text.IntToString(e.authorId)),
      "Group: " + e.groupName,
      "Created: " + CreatedText(e),
      CommentLabel,
      BodyText(e)
    ]
    + (if IsSet(e.assignmentUrl) then [LinkLine(e.assignmentUrl.value)] else [])
  }

  /** `build_teams_text`: the message shows the course, assignment, author
      and group names, the creation time (or "unknown"), the comment (or
      "(empty)"), and the assignment link when there is one. */
  function BuildTeamsText(e: CandidateEvent): (r: string)
    ensures |r| >= |Header| && r[..|Header|] == Header
    ensures IsInfix(e.courseName, r) && IsInfix(e.assignmentName, r)
    ensures IsInfix(e.authorName, r) && IsInfix(e.groupName, r)
    ensures IsInfix(e.commentText, r)
    ensures !IsSet(e.createdAt) ==> IsInfix("Created: unknown", r)
    ensures e.commentText == "" ==> IsInfix("(empty)", r)
    ensures IsSet(e.assignmentUrl) ==> IsInfix(LinkLine(e.assignmentUrl.value), r)
    ensures IsSet(e.createdAt) ==> IsInfix("Created: " + e.createdAt.value, r)
    ensures IsSet(e.assignmentUrl) ==> EndsWith(r, "\n" + LinkLine(e.assignmentUrl.value))
    ensures !IsSet(e.assignmentUrl) ==> EndsWith(r, "\n" + CommentLabel + "\n" + BodyText(e))
    ensures SingleLineFields(e) ==> NewlineCount(r) == if IsSet(e.assignmentUrl) then 8 else 7
  {
    var lines := TeamsLines(e);
    var r := Text.Join(lines, "\n");
    TeamsLinesAt(e);
    TeamsTextShowsLines(e, lines, r);
    TeamsTextEnds(e, lines, r);
    TeamsTextLineCount(e, lines, r);
    r
  }

  /** `t` is the last part of `s`. */
  predicate EndsWith(s: string, t: string) {
    |t| <= |s| && s[|s| - |t|..] == t
  }

  /** The number of newline characters in `s`. */
  function NewlineCount(s: string): nat {
    if s == [] then 0 else (if s[0] == '\n' then 1 else 0) + NewlineCount(s[1..])
  }

  /** `s` holds no line break. */
  predicate OneLine(s: string) {
    forall i :: 0 <= i < |s| ==> s[i] != '\n'
  }

  lemma {:induction false} OneLineCount(s: string)
    requires OneLine(s)
    ensures NewlineCount(s) == 0
    decreases |s|
  {
    if s != [] {
      assert OneLine(s[1..]) by {
        forall i | 0 <= i < |s| - 1 ensures s[1..][i] != '\n' {
          assert s[1..][i] == s[i + 1];
        }
      }
      OneLineCount(s[1..]);
    }
  }

  /** None of the event's free-text fields holds a line break. */
  predicate SingleLineFields(e: CandidateEvent) {
    && OneLine(e.courseName) && OneLine(e.assignmentName) && OneLine(e.authorName)
    && OneLine(e.groupName) && OneLine(e.commentText)
    && (e.createdAt.Some? ==> OneLine(e.createdAt.value))
    && (e.assignmentUrl.Some? ==> OneLine(e.assignmentUrl.value))
  }

  /** The message ends with the link line when there is a URL, and with the
      comment otherwise, so there is no link line without a URL. */
  lemma TeamsTextEnds(e: CandidateEvent, lines: seq<string>, r: string)
    requires r == Text.Join(lines, "\n")
    requires LinesOf(e, lines)
    ensures IsSet(e.assignmentUrl) ==> EndsWith(r, "\n" + LinkLine(e.assignmentUrl.value))
    ensures !IsSet(e.assignmentUrl) ==> EndsWith(r, "\n" + CommentLabel + "\n" + BodyText(e))
  {
    if IsSet(e.assignmentUrl) {
      JoinLast(lines, "\n");
    } else {
      JoinLastTwo(lines, "\n");
    }
  }

  /** A joined text ends with the separator and the last piece. */
  lemma JoinLast(ws: seq<string>, sep: string)
    requires |ws| >= 2
    ensures EndsWith(Text.Join(ws, sep), sep + ws[|ws| - 1])
  {
    var n := |ws| - 1;
    assert ws == ws[..n] + [ws[n]];
    JoinSnoc(ws[..n], ws[n], sep);
    EndsWithSum(Text.Join(ws[..n], sep), sep, ws[n]);
  }

  /** A joined text ends with its last two pieces and their separators. */
  lemma JoinLastTwo(ws: seq<string>, sep: string)
    requires |ws| >= 3
    ensures EndsWith(Text.Join(ws, sep), sep + ws[|ws| - 2] + sep + ws[|ws| - 1])
  {
    var n := |ws| - 1;
    var init := ws[..n];
    assert ws == init + [ws[n]];
    assert init == init[..n - 1] + [ws[n - 1]];
    JoinSnoc(init, ws[n], sep);
    JoinSnoc(init[..n - 1], ws[n - 1], sep);
    var j := Text.Join(init[..n - 1], sep);
    assert Text.Join(ws, sep) == j + sep + ws[n - 1] + sep + ws[n];
    EndsWithSum4(j, sep, ws[n - 1], ws[n]);
  }

  lemma EndsWithSum(a: string, b: string, c: string)
    ensures EndsWith(a + b + c, b + c)
  {
    assert a + b + c == a + (b + c);
  }

  lemma EndsWithSum4(a: string, sep: string, b: string, c: string)
    ensures EndsWith(a + sep + b + sep + c, sep + b + sep + c)
  {
    assert a + sep + b + sep + c == a + (sep + b + sep + c);
  }

  /** Joining one more piece adds a separator and the piece at the end. */
  lemma {:induction false} JoinSnoc(ws: seq<string>, w: string, sep: string)
    requires |ws| >= 1
    ensures Text.Join(ws + [w], sep) == Text.Join(ws, sep) + sep + w
    decreases |ws|
  {
    if |ws| > 1 {
      assert (ws + [w])[1..] == ws[1..] + [w];
      JoinSnoc(ws[1..], w, sep);
      var j := Text.Join(ws[1..], sep);
      assert ws[0] + sep + (j + sep + w) == (ws[0] + sep + j) + sep + w;
    }
  }

  lemma {:induction false} CountAppend(a: string, b: string)
    ensures NewlineCount(a + b) == NewlineCount(a) + NewlineCount(b)
    decreases |a|
  {
    if a == [] {
      assert a + b == b;
    } else {
      assert (a + b)[0] == a[0];
      assert (a + b)[1..] == a[1..] + b;
      CountAppend(a[1..], b);
    }
  }

  /** Joining pieces that hold no line break with "\n" gives one line break
      fewer than there are pieces. */
  lemma {:induction false} JoinLineCount(ws: seq<string>)
    requires |ws| >= 1
    requires forall k :: 0 <= k < |ws| ==> OneLine(ws[k])
    ensures NewlineCount(Text.Join(ws, "\n")) == |ws| - 1
    decreases |ws|
  {
    if |ws| == 1 {
      OneLineCount(ws[0]);
    } else {
      JoinLineCount(ws[1..]);
      OneLineCount(ws[0]);
      var j := Text.Join(ws[1..], "\n");
      assert Text.Join(ws, "\n") == (ws[0] + "\n") + j;
      CountAppend(ws[0] + "\n", j);
      CountAppend(ws[0], "\n");
    }
  }

  lemma OneLineAppend(a: string, b: string)
    requires OneLine(a) && OneLine(b)
    ensures OneLine(a + b)
  {
    forall i | 0 <= i < |a + b| ensures (a + b)[i] != '\n' {
      if i >= |a| {
        assert (a + b)[i] == b[i - |a|];
      }
    }
  }

  /** A written integer, or "None", holds no line break. */
  lemma IdOneLine(v: Option<int>)
    ensures OneLine(Text.OptIntToString(v))
    ensures v.Some? ==> OneLine(Text.IntToString(v.value))
  {
    if v.Some? {
      var t := Text.IntToString(v.value);
      forall k | 0 <= k < |t| ensures t[k] != '\n' {
        assert t[k] == '-' || '0' <= t[k] <= '9';
      }
    } else {
      assert OneLine("None");
    }
  }

  /** The line `before + field + IdTail(id)` holds no line break when its
      parts hold none. */
  lemma IdLineOneLine(before: string, field: string, id: string)
    requires OneLine(before) && OneLine(field) && OneLine(id)
    ensures OneLine(before + field + IdTail(id))
  {
    assert OneLine(" (ID: ") && OneLine(")");
    OneLineAppend(" (ID: ", id);
    OneLineAppend(" (ID: " + id, ")");
    OneLineAppend(before, field);
    OneLineAppend(before + field, IdTail(id));
  }

  /** The first four lines hold no line break when the names hold none. */
  lemma HeadLinesOneLine(e: CandidateEvent, lines: seq<string>)
    requires LinesOf(e, lines)
    requires SingleLineFields(e)
    ensures forall k :: 0 <= k < 4 ==> OneLine(lines[k])
  {
    LabelsOneLine();
    IdOneLine(Some(e.courseId));
    IdOneLine(e.assignmentId);
    IdOneLine(Some(e.authorId));
    IdLineOneLine("Course: ", e.courseName, Text.IntToString(e.courseId));
    IdLineOneLine("Assignment: ", e.assignmentName, Text.OptIntToString(e.assignmentId));
    IdLineOneLine("Author: ", e.authorName, Text.IntToString(e.authorId));
  }

  /** The remaining lines hold no line break when the fields hold none. */
  lemma TailLinesOneLine(e: CandidateEvent, lines: seq<string>)
    requires LinesOf(e, lines)
    requires SingleLineFields(e)
    ensures forall k :: 4 <= k < |lines| ==> OneLine(lines[k])
  {
    LabelsOneLine();
    OneLineAppend("Group: ", e.groupName);
    OneLineAppend("Group: " + e.groupName, "");
    if IsSet(e.createdAt) {
      OneLineAppend("Created: ", e.createdAt.value);
    }
    if IsSet(e.assignmentUrl) {
      OneLineAppend("Assignment link: ", e.assignmentUrl.value);
    }
  }

  /** When no field breaks a line, the message has nine lines with an
      assignment URL and eight without. */
  lemma TeamsTextLineCount(e: CandidateEvent, lines: seq<string>, r: string)
    requires r == Text.Join(lines, "\n")
    requires LinesOf(e, lines)
    ensures SingleLineFields(e) ==> NewlineCount(r) == if IsSet(e.assignmentUrl) then 8 else 7
  {
    if SingleLineFields(e) {
      HeadLinesOneLine(e, lines);
      TailLinesOneLine(e, lines);
      JoinLineCount(lines);
    }
  }

  /** The fixed texts of the message hold no line break. */
  lemma LabelsOneLine()
    ensures OneLine(Header) && OneLine(CommentLabel) && OneLine("(empty)") && OneLine("")
    ensures OneLine("Course: ") && OneLine("Assignment: ") && OneLine("Author: ") && OneLine("Group: ")
    ensures OneLine("Created: ") && OneLine("Created: unknown") && OneLine("Assignment link: ")
  {
    assert OneLine(Header);
    assert OneLine("Created: unknown");
    assert OneLine("Assignment link: ");
  }

  lemma TeamsTextShowsLines(e: CandidateEvent, lines: seq<string>, r: string)
    requires r == Text.Join(lines, "\n")
    requires LinesOf(e, lines)
    ensures |r| >= |Header| && r[..|Header|] == Header
    ensures IsInfix(e.courseName, r) && IsInfix(e.assignmentName, r)
    ensures IsInfix(e.authorName, r) && IsInfix(e.groupName, r)
    ensures IsInfix(e.commentText, r)
    ensures !IsSet(e.createdAt) ==> IsInfix("Created: unknown", r)
    ensures e.commentText == "" ==> IsInfix("(empty)", r)
    ensures IsSet(e.assignmentUrl) ==> IsInfix(LinkLine(e.assignmentUrl.value), r)
    ensures IsSet(e.createdAt) ==> IsInfix("Created: " + e.createdAt.value, r)
  {
    JoinStartsWithFirst(lines, "\n");
    FieldShown(e.courseName, "Course: ", IdTail(Text.IntToString(e.courseId)), lines, 1);
    FieldShown(e.assignmentName, "Assignment: ", IdTail(Text.OptIntToString(e.assignmentId)), lines, 2);
    FieldShown(e.authorName, "Author: ", IdTail(Text.IntToString(e.authorId)), lines, 3);
    FieldShown(e.groupName, "Group: ", "", lines, 4);
    InfixOfJoin(lines, "\n", 5);
    InfixOfJoin(lines, "\n", 7);
    if e.commentText == "" {
      assert InfixAt(e.commentText, r, 0);
    }
    if IsSet(e.assignmentUrl) {
      InfixOfJoin(lines, "\n", 8);
    }
  }

  /** What each line of a message holds. */
  predicate LinesOf(e: CandidateEvent, lines: seq<string>) {
      && |lines| == (if IsSet(e.assignmentUrl) then 9 else 8)
      && lines[0] == Header
      && lines[1] == "Course: " + e.courseName + IdTail(Text.IntToString(e.courseId))
      && lines[2] == "Assignment: " + e.assignmentName + IdTail(Text.OptIntToString(e.assignmentId))
      && lines[3] == "Author: " + e.authorName + IdTail(Text.IntToString(e.authorId))
      // The empty suffix lets `FieldShown` treat this line like the three before it.
      && lines[4] == "Group: " + e.groupName + ""
      && lines[5] == (if IsSet(e.createdAt) then "Created: " + e.createdAt.value else "Created: unknown")
      && lines[6] == CommentLabel
      && lines[7] == (if e.commentText != "" then e.commentText else "(empty)")
      && (IsSet(e.assignmentUrl) ==> lines[8] == LinkLine(e.assignmentUrl.value))
  }

  lemma TeamsLinesAt(e: CandidateEvent)
    ensures LinesOf(e, TeamsLines(e))
  {
    assert "Group: " + e.groupName + "" == "Group: " + e.groupName;
  }

  /** A field written on one of the lines occurs in the joined text. */
  lemma FieldShown(s: string, before: string, after: string, lines: seq<string>, k: nat)
    requires k < |lines| && lines[k] == before + s + after
    ensures IsInfix(s, Text.Join(lines, "\n"))
  {
    InfixOfJoin(lines, "\n", k);
    InfixWithin(s, before, after, lines[k], Text.Join(lines, "\n"));
  }

  lemma InfixSplit(s: string, t: string) returns (i: nat)
    requires IsInfix(s, t)
    ensures InfixAt(s, t, i)
  {
    i :| InfixAt(s, t, i);
  }

  /** A piece of a line that occurs in a text occurs in the text. */
  lemma InfixWithin(s: string, before: string, after: string, line: string, t: string)
    requires line == before + s + after
    requires IsInfix(line, t)
    ensures IsInfix(s, t)
  {
    var i := InfixSplit(line, t);
    var j := i + |before|;
    forall m | 0 <= m < |s| ensures t[j + m] == s[m] {
      assert t[i..i + |line|][|before| + m] == line[|before| + m];
    }
    assert t[j..j + |s|] == s;
    assert InfixAt(s, t, j);
  }

  lemma {:induction false} JoinStartsWithFirst(ws: seq<string>, sep: string)
    requires |ws| > 0
    ensures var r := Text.Join(ws, sep); |r| >= |ws[0]| && r[..|ws[0]|] == ws[0]
  {
  }

  /** Every joined piece occurs in the joined text. */
  lemma {:induction false} InfixOfJoin(ws: seq<string>, sep: string, k: nat)
    requires k < |ws|
    ensures IsInfix(ws[k], Text.Join(ws, sep))
  {
    var r := Text.Join(ws, sep);
    if |ws| == 1 || k == 0 {
      JoinStartsWithFirst(ws, sep);
      assert InfixAt(ws[0], r, 0);
    } else {
      var rest := Text.Join(ws[1..], sep);
      assert r == ws[0] + sep + rest;
      InfixOfJoin(ws[1..], sep, k - 1);
      var i := InfixSplit(ws[k], rest);
      var off := |ws[0]| + |sep|;
      assert r[off + i..off + i + |ws[k]|] == rest[i..i + |ws[k]|];
      assert InfixAt(ws[k], r, off + i);
    }
  }

  /** The event the test suite formats: its course, assignment, author and
      comment all appear in the message. */
  lemma TeamsTextExample(comment: Keyer.Comment)
    ensures
      var e := CandidateEvent(
        42, "Algorithms", Some(7), "Report", Some("https://canvas.example/assignments/7"), None,
        1001, "Student A", "Group 2", Some("2026-02-02T11:30:00Z"), "Please check section 3.", comment);
      var text := BuildTeamsText(e);
      && IsInfix("Algorithms", text) && IsInfix("Report", text)
      && IsInfix("Student A", text) && IsInfix("Please check section 3.", text)
  {
  }
}
