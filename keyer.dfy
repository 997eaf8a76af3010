/**
 * The identity keyer (`make_comment_key`): the canonical record chosen for
 * a comment and the key derived from it.
 *
 * The key is the SHA-256 hex digest of the record's sorted-key, compact JSON
 * text. Both steps are left opaque: every operation that needs keys is given
 * the digest function `digest` as a parameter, so the properties below hold
 * for every choice of it (no collision resistance is assumed anywhere).
 */
module Keyer {
  import opened Base
  import Text

  /** A submission comment as the platform returns it; a field the record
      lacks reads as `None`, like Python's `comment.get(...)`. */
  datatype Comment = Comment(
    id: Option<int>,
    authorId: Option<int>,
    authorName: Option<string>,
    createdAt: Option<string>,
    text: Option<string>)

  /** The record that is serialised and hashed: by platform comment id when
      there is one, otherwise by the comment's content. */
  datatype Canonical =
    | ById(courseId: int, assignmentId: Option<int>, submissionUserId: Option<int>,
           commentId: int)
    | ByContent(courseId: int, assignmentId: Option<int>, submissionUserId: Option<int>,
                authorId: Option<int>, createdAt: Option<string>, comment: string)

  /** Serialisation plus hashing of a canonical record. */
  type Digest = Canonical -> string

  function CanonicalRecord(courseId: int, assignmentId: Option<int>, submissionUserId: Option<int>,
                           c: Comment): Canonical
  {
    match c.id
    case Some(id) => ById(courseId, assignmentId, submissionUserId, id)
    case None =>
      ByContent(courseId, assignmentId, submissionUserId, c.authorId, c.createdAt,
                Text.NormalizeText(c.text))
  }

  /** `make_comment_key`. */
  function MakeCommentKey(digest: Digest, courseId: int, assignmentId: Option<int>,
                          submissionUserId: Option<int>, c: Comment): string
  {
    digest(CanonicalRecord(courseId, assignmentId, submissionUserId, c))
  }

  /** With a platform comment id, the record is made of the course, the
      assignment, the submission owner and that id, and of nothing else:
      two comments get the same record exactly when those four agree. */
  lemma CanonicalById(courseId: int, assignmentId: Option<int>, submissionUserId: Option<int>, c: Comment,
                      courseId': int, assignmentId': Option<int>, submissionUserId': Option<int>, c': Comment)
    requires c.id.Some?
    ensures CanonicalRecord(courseId, assignmentId, submissionUserId, c).ById?
    ensures CanonicalRecord(courseId, assignmentId, submissionUserId, c)
            == CanonicalRecord(courseId', assignmentId', submissionUserId', c')
        <==> courseId == courseId' && assignmentId == assignmentId'
             && submissionUserId == submissionUserId' && c.id == c'.id
  {
  }

  /** Without a comment id, two comments get the same record exactly when
      the course, assignment, submission owner, author, creation time and
      normalised text all agree. */
  lemma CanonicalByContent(courseId: int, assignmentId: Option<int>, submissionUserId: Option<int>, c: Comment,
                           courseId': int, assignmentId': Option<int>, submissionUserId': Option<int>, c': Comment)
    requires c.id.None?
    ensures CanonicalRecord(courseId, assignmentId, submissionUserId, c).ByContent?
    ensures CanonicalRecord(courseId, assignmentId, submissionUserId, c)
            == CanonicalRecord(courseId', assignmentId', submissionUserId', c')
        <==> && c'.id.None?
             && courseId == courseId' && assignmentId == assignmentId'
             && submissionUserId == submissionUserId'
             && c.authorId == c'.authorId && c.createdAt == c'.createdAt
             && Text.NormalizeText(c.text) == Text.NormalizeText(c'.text)
  {
  }

  /** Edits to a comment that keeps its id (new text, new timestamp, even a
      new author field) do not change its key. */
  lemma KeyIgnoresEdits(digest: Digest, courseId: int, assignmentId: Option<int>,
                        submissionUserId: Option<int>, c: Comment, c': Comment)
    requires c.id.Some? && c'.id == c.id
    ensures MakeCommentKey(digest, courseId, assignmentId, submissionUserId, c)
            == MakeCommentKey(digest, courseId, assignmentId, submissionUserId, c')
  {
    CanonicalById(courseId, assignmentId, submissionUserId, c, courseId, assignmentId, submissionUserId, c');
  }

  /** Two id-less comments whose texts lay out the same words with
      different whitespace get the same key. */
  lemma {:induction false} KeyIgnoresWhitespace(digest: Digest, courseId: int, assignmentId: Option<int>,
                                                submissionUserId: Option<int>, c: Comment, c': Comment,
                                                words: seq<string>, gaps: seq<string>, gaps': seq<string>)
    requires c.id.None? && c'.id.None?
    requires c.authorId == c'.authorId && c.createdAt == c'.createdAt
    requires Text.AllWords(words) && Text.IsGaps(words, gaps) && Text.IsGaps(words, gaps')
    requires c.text == Some(Text.Layout(words, gaps)) && c'.text == Some(Text.Layout(words, gaps'))
    ensures MakeCommentKey(digest, courseId, assignmentId, submissionUserId, c)
            == MakeCommentKey(digest, courseId, assignmentId, submissionUserId, c')
  {
    Text.NormalizeLayout(words, gaps);
    Text.NormalizeLayout(words, gaps');
  }

  /** The case the test suite checks: "Great   work" and "Great work" from
      the same author at the same time share a key. */
  lemma KeyWhitespaceExample(digest: Digest)
    ensures
      var at := Some("2026-02-01T10:00:00Z");
      MakeCommentKey(digest, 1, Some(2), Some(3), Comment(None, Some(120), None, at, Some("Great   work")))
      == MakeCommentKey(digest, 1, Some(2), Some(3), Comment(None, Some(120), None, at, Some("Great work")))
  {
    var at := Some("2026-02-01T10:00:00Z");
    var ws := ["Great", "work"];
    assert Text.IsWord(ws[0]) && Text.IsWord(ws[1]);
    var g, g' := ["", "   ", ""], ["", " ", ""];
    assert Text.AllSpace(g[1]) && Text.AllSpace(g'[1]);
    assert Text.Layout(ws[2..], g[2..]) == "" && Text.Layout(ws[2..], g'[2..]) == "";
    assert Text.Layout(ws, g) == "Great   work";
    assert Text.Layout(ws, g') == "Great work";
    KeyIgnoresWhitespace(digest, 1, Some(2), Some(3),
                         Comment(None, Some(120), None, at, Some("Great   work")),
                         Comment(None, Some(120), None, at, Some("Great work")), ws, g, g');
  }
}
