/**
 * The `Content` entity (Domain/Models/Content.cs), the requests the content service reads, and
 * the field-by-field effect of each update, as functions of the row before it.
 */
module Contents {
  import opened Wrappers
  import opened Postgres

  /**
   * One row of the Contents table. Timestamps are seconds on the server's UTC clock; `images` holds
   * the ids of the attached ContentImage rows.
   */
  datatype Content = Content(
    id: int,
    author: string,
    createdAt: int,
    updatedAt: Option<int>,
    active: bool,
    draft: bool,
    title: string,
    subtitle: Option<string>,
    contentText: string,
    publishAt: Option<int>,
    images: seq<int>)

  const MaxAuthorLength: nat := 200
  const MaxTitleLength: nat := 500
  const MaxSubtitleLength: nat := 1000

  /** A `new Content()` before any property is set. */
  function DefaultContent(now: int): (c: Content)
    ensures c.active && c.draft
    ensures c.author == "" && c.title == "" && c.contentText == "" && c.subtitle == None
    ensures c.createdAt == now && c.updatedAt == None && c.publishAt == None && c.images == []
  {
    Content(0, "", now, None, true, true, "", None, "", None, [])
  }

  /**
   * What the string columns can hold: Author at most 200 characters, Title at most 500, Subtitle at
   * most 1000, ContentText of any length, and none of them U+0000.
   */
  predicate RowFits(c: Content) {
    && |c.author| <= MaxAuthorLength && NulFree(c.author)
    && |c.title| <= MaxTitleLength && NulFree(c.title)
    && (c.subtitle.Some? ==> |c.subtitle.value| <= MaxSubtitleLength && NulFree(c.subtitle.value))
    && NulFree(c.contentText)
  }

  /**
   * The row the database stores for the entity `c`: Author, Title and Subtitle each pass through
   * their varchar(n) column, so a value that is too long only by trailing spaces is stored cut to
   * the limit; None when a column refuses its value (too long, or holding U+0000). ContentText is
   * `text`, without a limit but refusing U+0000 too, and every other field is stored as it is.
   */
  function StoredContent(c: Content): (r: Option<Content>)
    ensures r.Some? <==> && VarcharColumn(c.author, MaxAuthorLength).Some?
                         && VarcharColumn(c.title, MaxTitleLength).Some?
                         && (c.subtitle.Some? ==> VarcharColumn(c.subtitle.value, MaxSubtitleLength).Some?)
                         && TextColumn(c.contentText).Some?
    ensures r.Some? ==> && RowFits(r.value)
                        && Varchar(c.author, MaxAuthorLength) == Some(r.value.author)
                        && Varchar(c.title, MaxTitleLength) == Some(r.value.title)
                        && (c.subtitle.None? ==> r.value.subtitle.None?)
                        && (c.subtitle.Some? ==> Varchar(c.subtitle.value, MaxSubtitleLength) == r.value.subtitle)
                        && r.value == c.(author := r.value.author, title := r.value.title, subtitle := r.value.subtitle)
    ensures RowFits(c) ==> r == Some(c)
  {
    var author := VarcharColumn(c.author, MaxAuthorLength);
    var title := VarcharColumn(c.title, MaxTitleLength);
    var subtitle := if c.subtitle.Some? then VarcharColumn(c.subtitle.value, MaxSubtitleLength) else None;
    if author.None? || title.None? || (c.subtitle.Some? && subtitle.None?) || TextColumn(c.contentText).None? then None
    else Some(c.(author := author.value, title := title.value, subtitle := subtitle))
  }

  /**
   * A title of 500 characters followed by spaces is stored as those 500 characters, with no
   * error; the row is otherwise stored as it is.
   */
  lemma PaddedTitleIsCut(c: Content, title: string, k: nat)
    requires RowFits(c.(title := title))
    requires |title| == MaxTitleLength && c.title == title + seq(k, _ => ' ')
    ensures StoredContent(c) == Some(c.(title := title))
  {
    VarcharCutsPadding(title, MaxTitleLength, k);
    assert NulFree(c.title);
  }

  /**
   * A U+0000 anywhere in a string field, however short the value, and in ContentText too, makes
   * the database refuse the row.
   */
  lemma NulIsRefused(c: Content)
    requires || !NulFree(c.author) || !NulFree(c.title) || !NulFree(c.contentText)
             || (c.subtitle.Some? && !NulFree(c.subtitle.value))
    ensures StoredContent(c) == None
  {
  }

  /** The body of a create: author, title, optional subtitle, text, and the draft flag. */
  datatype ContentRequest = ContentRequest(author: string, title: string, subtitle: Option<string>,
                                           content: string, draft: bool)

  /** The status update: each field present overwrites, each absent one is left alone. */
  datatype ContentUpdateRequest = ContentUpdateRequest(draft: Option<bool>, active: Option<bool>, publishAt: Option<int>)

  /** The full update: every field optional. */
  datatype ContentFullUpdateRequest = ContentFullUpdateRequest(
    author: Option<string>, title: Option<string>, subtitle: Option<string>, content: Option<string>,
    draft: Option<bool>, active: Option<bool>, publishAt: Option<int>)

  /** The row a create builds (the database assigns `id`): the request's fields, active, created now. */
  function NewContent(r: ContentRequest, now: int): (c: Content)
    ensures RowFits(c) <==> && |r.author| <= MaxAuthorLength && NulFree(r.author)
                            && |r.title| <= MaxTitleLength && NulFree(r.title)
                            && (r.subtitle.Some? ==> |r.subtitle.value| <= MaxSubtitleLength && NulFree(r.subtitle.value))
                            && NulFree(r.content)
  {
    DefaultContent(now).(author := r.author, title := r.title, subtitle := r.subtitle,
                         contentText := r.content, draft := r.draft, active := true, createdAt := now)
  }

  /** `!string.IsNullOrEmpty(s)`. */
  predicate HasText(s: Option<string>) {
    s.Some? && s.value != ""
  }

  /** The row after `UpdateContentAsync`: Draft, Active and PublishAt as carried, then UpdatedAt stamped. */
  function ApplyStatus(c: Content, r: ContentUpdateRequest, now: int): (c': Content)
    ensures RowFits(c') <==> RowFits(c)
    ensures c'.id == c.id && c'.createdAt == c.createdAt && c'.images == c.images
  {
    c.(draft := r.draft.GetOr(c.draft), active := r.active.GetOr(c.active),
       publishAt := if r.publishAt.Some? then r.publishAt else c.publishAt, updatedAt := Some(now))
  }

  /** The row after `UpdateContentFullAsync`. */
  function ApplyFull(c: Content, r: ContentFullUpdateRequest, now: int): (c': Content)
    ensures c'.id == c.id && c'.createdAt == c.createdAt && c'.images == c.images
    ensures RowFits(c) && (HasText(r.author) ==> |r.author.value| <= MaxAuthorLength && NulFree(r.author.value))
            && (HasText(r.title) ==> |r.title.value| <= MaxTitleLength && NulFree(r.title.value))
            && (r.subtitle.Some? ==> |r.subtitle.value| <= MaxSubtitleLength && NulFree(r.subtitle.value))
            && (HasText(r.content) ==> NulFree(r.content.value))
            ==> RowFits(c')
  {
    var author := if HasText(r.author) then r.author.value else c.author;
    var title := if HasText(r.title) then r.title.value else c.title;
    var subtitle := if r.subtitle.Some? then r.subtitle else c.subtitle;
    var text := if HasText(r.content) then r.content.value else c.contentText;
    var publishAt := if r.publishAt.Some? then r.publishAt else c.publishAt;
    Content(c.id, author, c.createdAt, Some(now), r.active.GetOr(c.active), r.draft.GetOr(c.draft),
            title, subtitle, text, publishAt, c.images)
  }

  /** The status part of a full update. */
  function StatusPart(r: ContentFullUpdateRequest): ContentUpdateRequest {
    ContentUpdateRequest(r.draft, r.active, r.publishAt)
  }

  /**
   * A new row copies author, title, subtitle, text and the draft flag, is active, created now, and
   * was never updated, scheduled or given images.
   */
  lemma NewContentFields(r: ContentRequest, now: int)
    ensures var c := NewContent(r, now);
      && c.author == r.author && c.title == r.title && c.subtitle == r.subtitle
      && c.contentText == r.content && c.draft == r.draft && c.active && c.createdAt == now
      && c.updatedAt == None && c.publishAt == None && c.images == []
  {
  }

  /**
   * A status update sets exactly the fields it carries and stamps UpdatedAt; id, text fields,
   * CreatedAt and images stay as they were.
   */
  lemma StatusUpdateFields(c: Content, r: ContentUpdateRequest, now: int)
    ensures var c' := ApplyStatus(c, r, now);
      && c'.id == c.id && c'.author == c.author && c'.title == c.title && c'.subtitle == c.subtitle
      && c'.contentText == c.contentText && c'.createdAt == c.createdAt && c'.images == c.images
      && (r.draft.Some? ==> c'.draft == r.draft.value) && (r.draft.None? ==> c'.draft == c.draft)
      && (r.active.Some? ==> c'.active == r.active.value) && (r.active.None? ==> c'.active == c.active)
      && (r.publishAt.Some? ==> c'.publishAt == r.publishAt) && (r.publishAt.None? ==> c'.publishAt == c.publishAt)
      && c'.updatedAt == Some(now)
      && (RowFits(c) ==> RowFits(c'))
  {
  }

  /**
   * A full update replaces Author, Title and ContentText only with non-empty values but Subtitle with
   * any value it carries, the empty string included; id, CreatedAt and images stay as they were.
   */
  lemma FullUpdateFields(c: Content, r: ContentFullUpdateRequest, now: int)
    ensures var c' := ApplyFull(c, r, now);
      && c'.id == c.id && c'.createdAt == c.createdAt && c'.images == c.images
      && (HasText(r.author) ==> c'.author == r.author.value) && (!HasText(r.author) ==> c'.author == c.author)
      && (HasText(r.title) ==> c'.title == r.title.value) && (!HasText(r.title) ==> c'.title == c.title)
      && (HasText(r.content) ==> c'.contentText == r.content.value)
      && (!HasText(r.content) ==> c'.contentText == c.contentText)
      && (r.subtitle.Some? ==> c'.subtitle == r.subtitle) && (r.subtitle.None? ==> c'.subtitle == c.subtitle)
      && c'.updatedAt == Some(now)
  {
  }

  /** An empty Author/Title/Content is ignored, while an empty Subtitle clears the subtitle to "". */
  lemma EmptyStringsInFullUpdate(c: Content, now: int)
    ensures var r := ContentFullUpdateRequest(Some(""), Some(""), Some(""), Some(""), None, None, None);
      var c' := ApplyFull(c, r, now);
      c'.author == c.author && c'.title == c.title && c'.contentText == c.contentText && c'.subtitle == Some("")
  {
  }

  /** A full update that carries no text fields is the status update of its status fields. */
  lemma FullUpdateWithoutTextIsStatusUpdate(c: Content, r: ContentFullUpdateRequest, now: int)
    requires !HasText(r.author) && !HasText(r.title) && !HasText(r.content) && r.subtitle.None?
    ensures ApplyFull(c, r, now) == ApplyStatus(c, StatusPart(r), now)
  {
  }

  /** The status part of every full update behaves as the status update does. */
  lemma FullUpdateAgreesWithStatus(c: Content, r: ContentFullUpdateRequest, now: int)
    ensures var f := ApplyFull(c, r, now);
      var s := ApplyStatus(c, StatusPart(r), now);
      f.draft == s.draft && f.active == s.active && f.publishAt == s.publishAt && f.updatedAt == s.updatedAt
  {
  }

  /** Repeating an update with the same request and clock changes nothing further. */
  lemma UpdatesIdempotent(c: Content, r: ContentUpdateRequest, f: ContentFullUpdateRequest, now: int)
    ensures ApplyStatus(ApplyStatus(c, r, now), r, now) == ApplyStatus(c, r, now)
    ensures ApplyFull(ApplyFull(c, f, now), f, now) == ApplyFull(c, f, now)
  {
  }

  /** Neither update can clear a publication date: once scheduled, a row stays scheduled. */
  lemma PublishAtNeverCleared(c: Content, r: ContentUpdateRequest, f: ContentFullUpdateRequest, now: int)
    requires c.publishAt.Some?
    ensures ApplyStatus(c, r, now).publishAt.Some?
    ensures ApplyFull(c, f, now).publishAt.Some?
  {
  }

  /** No publication date and not a draft: the row may be published at once. */
  predicate PublishableNow(c: Content) {
    !c.draft && c.publishAt.None?
  }
}

/**
 * The Contents table as Api/Services/ContentService.cs changes it: rows keyed by id and the
 * identity counter.
 */
module ContentService {
  import opened Wrappers
  import opened Text
  import opened Contents

  /** The message of the `DbUpdateException` raised when the database refuses a change. */
  const SaveFailedMessage: string := "An error occurred while saving the entity changes. See the inner exception for details."

  /** The message an update of a missing id throws with. */
  function NotFoundMessage(id: int): (m: string)
    ensures StartsWith(m, "Content with ID ") && EndsWith(m, " not found")
  {
    "Content with ID " + IntToString(id) + " not found"
  }

  class ContentStore {
    var rows: map<int, Content>
    var nextId: int

    ghost predicate Valid()
      reads this
    {
      forall id :: id in rows ==> rows[id].id == id && id < nextId && RowFits(rows[id])
    }

    constructor ()
      ensures Valid() && rows == map[] && nextId == 1
    {
      rows := map[];
      nextId := 1;
    }

    /** `GetContentByIdAsync`: the row with this id, or None. */
    function Get(id: int): (r: Option<Content>)
      reads this
      ensures r.Some? <==> id in rows
      ensures r.Some? ==> r.value == rows[id] && (Valid() ==> r.value.id == id)
    {
      if id in rows then Some(rows[id]) else None
    }

    /**
     * `CreateContentAsync`: add one row under the next id, as its columns store it, drawing one
     * identity value. When a column refuses its value the statement fails before it executes, so
     * the table and the identity counter stay as they were. The entity returned keeps the
     * request's values as given: `SaveChangesAsync` reads back only the generated Id.
     */
    method Create(r: ContentRequest, now: int) returns (res: Result<Content>)
      requires Valid()
      modifies this
      ensures Valid()
      ensures var c := NewContent(r, now).(id := old(nextId));
        if StoredContent(c).Some?
        then res == Ok(c) && rows == old(rows)[old(nextId) := StoredContent(c).value] && nextId == old(nextId) + 1
        else res == Err(SaveFailedMessage) && rows == old(rows) && nextId == old(nextId)
    {
      var c := NewContent(r, now).(id := nextId);
      var stored := StoredContent(c);
      if stored.None? {
        return Err(SaveFailedMessage);
      }
      rows := rows[c.id := stored.value];
      nextId := nextId + 1;
      res := Ok(c);
    }

    /** `UpdateContentAsync`: overwrite the status fields the request carries and stamp UpdatedAt. */
    method Update(id: int, r: ContentUpdateRequest, now: int) returns (res: Result<Content>)
      requires Valid()
      modifies this
      ensures Valid() && nextId == old(nextId)
      ensures id !in old(rows) ==> res == Err(NotFoundMessage(id)) && rows == old(rows)
      ensures id in old(rows) ==>
        res == Ok(ApplyStatus(old(rows)[id], r, now)) && rows == old(rows)[id := res.value]
    {
      if id !in rows {
        return Err(NotFoundMessage(id));
      }
      var c := rows[id];
      var draft, active, publishAt := c.draft, c.active, c.publishAt;
      if r.draft.Some? {
        draft := r.draft.value;
      }
      if r.active.Some? {
        active := r.active.value;
      }
      if r.publishAt.Some? {
        publishAt := r.publishAt;
      }
      c := c.(draft := draft, active := active, publishAt := publishAt, updatedAt := Some(now));
      rows := rows[id := c];
      res := Ok(c);
    }

    /**
     * `UpdateContentFullAsync`: overwrite the text fields that carry text (Subtitle: any value), the
     * status fields that carry a value, and stamp UpdatedAt. The row is saved as its columns store
     * it; a value a column refuses makes the save fail and leaves the row as it was. The entity
     * returned keeps the values as given.
     */
    method UpdateFull(id: int, r: ContentFullUpdateRequest, now: int) returns (res: Result<Content>)
      requires Valid()
      modifies this
      ensures Valid() && nextId == old(nextId)
      ensures id !in old(rows) ==> res == Err(NotFoundMessage(id)) && rows == old(rows)
      ensures id in old(rows) && StoredContent(ApplyFull(old(rows)[id], r, now)).Some? ==>
        res == Ok(ApplyFull(old(rows)[id], r, now)) && rows == old(rows)[id := StoredContent(res.value).value]
      ensures id in old(rows) && StoredContent(ApplyFull(old(rows)[id], r, now)).None? ==>
        res == Err(SaveFailedMessage) && rows == old(rows)
    {
      if id !in rows {
        return Err(NotFoundMessage(id));
      }
      var c := rows[id];
      var author, title, subtitle, text := c.author, c.title, c.subtitle, c.contentText;
      var draft, active, publishAt := c.draft, c.active, c.publishAt;
      if HasText(r.author) {
        author := r.author.value;
      }
      if HasText(r.title) {
        title := r.title.value;
      }
      if r.subtitle.Some? {
        subtitle := r.subtitle;
      }
      if HasText(r.content) {
        text := r.content.value;
      }
      if r.draft.Some? {
        draft := r.draft.value;
      }
      if r.active.Some? {
        active := r.active.value;
      }
      if r.publishAt.Some? {
        publishAt := r.publishAt;
      }
      c := Content(c.id, author, c.createdAt, Some(now), active, draft, title, subtitle, text, publishAt, c.images);
      assert c == ApplyFull(rows[id], r, now);
      var stored := StoredContent(c);
      if stored.None? {
        return Err(SaveFailedMessage);
      }
      rows := rows[id := stored.value];
      res := Ok(c);
    }

    /** `DeleteContentAsync`: remove the row and answer true, or answer false when there is none. */
    method Delete(id: int) returns (deleted: bool)
      requires Valid()
      modifies this
      ensures Valid() && nextId == old(nextId)
      ensures deleted <==> id in old(rows)
      ensures rows == old(rows) - {id}
    {
      deleted := id in rows;
      rows := rows - {id};
    }
  }

  /** A create that the limits admit adds exactly one row, under an id no row had. */
  lemma CreateAddsOneRow(rows: map<int, Content>, nextId: int, c: Content)
    requires forall id :: id in rows ==> id < nextId
    ensures nextId !in rows
    ensures |rows[nextId := c]| == |rows| + 1
    ensures forall id :: id in rows ==> rows[nextId := c][id] == rows[id]
  {
  }

  /** A delete of a present id removes one row and keeps every other row as it was. */
  lemma DeleteRemovesOneRow(rows: map<int, Content>, id: int)
    requires id in rows
    ensures |rows - {id}| == |rows| - 1
    ensures forall k :: k in rows && k != id ==> k in rows - {id} && (rows - {id})[k] == rows[k]
  {
  }
}
