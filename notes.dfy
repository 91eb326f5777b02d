/**
 * The note store (`NotesService`): notes owned by exactly one user, created for the caller, listed
 * page by page among the caller's own notes, and read, updated or deleted only by their owner.
 */
module Notes {
  import opened Common
  import ExceptionFilter

  /** A stored note. `owner` is the id of the user who created it. */
  datatype Note = Note(id: Id, title: string, content: string, tags: seq<string>, owner: Id)

  /** The body of a create request; `tags` may be omitted and then defaults to the empty list. */
  datatype CreateNoteDto = CreateNoteDto(title: string, content: string, tags: Option<seq<string>>)

  /** The body of an update request: every field is optional. */
  datatype UpdateNoteDto = UpdateNoteDto(title: Option<string>, content: Option<string>, tags: Option<seq<string>>)

  /** The list query `?page=&limit=`; both are optional. */
  datatype PaginationQuery = PaginationQuery(limit: Option<int>, page: Option<int>)

  /** The list response `{ notes, total, pages }`. */
  datatype Page = Page(notes: seq<Note>, total: nat, pages: nat)

  /** The operation the ownership check guards; it only changes the wording of the Forbidden message. */
  datatype Action = AccessNote | UpdateNote | DeleteNote

  /** The two ways the ownership check refuses: the note is absent, or it belongs to someone else. */
  datatype NoteError = NotFound | Forbidden(action: Action)

  /** Saving a note whose required title or content is empty is rejected by the schema's validation. */
  datatype CreateError = RequiredFieldEmpty

  const DefaultLimit: int := 10
  const DefaultPage: int := 1

  function Limit(q: PaginationQuery): int {
    q.limit.GetOr(DefaultLimit)
  }

  function PageNumber(q: PaginationQuery): int {
    q.page.GetOr(DefaultPage)
  }

  /** Page numbers and limits start at 1. */
  predicate ValidQuery(q: PaginationQuery) {
    PageNumber(q) >= 1 && Limit(q) >= 1
  }

  /** The number of the caller's notes that come before the requested page. */
  function Skip(q: PaginationQuery): (s: nat)
    requires ValidQuery(q)
    ensures s == (PageNumber(q) - 1) * Limit(q)
    ensures q.page.None? ==> s == 0
  {
    var page, limit := PageNumber(q), Limit(q);
    assert (page - 1) * limit >= 0 by {
      NonNegativeProduct(page - 1, limit);
    }
    (page - 1) * limit
  }

  lemma NonNegativeProduct(a: int, b: int)
    requires a >= 0 && b >= 0
    ensures a * b >= 0
  {
  }

  /** `Math.ceil(total / limit)`: the fewest pages of `limit` notes that hold `total` notes. */
  function CeilDiv(total: nat, limit: int): (pages: nat)
    requires limit >= 1
    ensures (pages - 1) * limit < total <= pages * limit
  {
    var q := (total + limit - 1) / limit;
    assert q * limit + (total + limit - 1) % limit == total + limit - 1;
    q
  }

  /** The ids of the notes owned by `owner`. */
  function Owned(notes: map<Id, Note>, owner: Id): (r: set<Id>)
    ensures r <= notes.Keys
    ensures forall below: Id :: (forall k :: k in notes ==> k < below) ==> r == OwnedBelow(notes, owner, below)
  {
    set k | k in notes && notes[k].owner == owner
  }

  /** The ids of the notes owned by `owner` that are below `below`. */
  function OwnedBelow(notes: map<Id, Note>, owner: Id, below: Id): set<Id> {
    set k | k in notes && notes[k].owner == owner && k < below
  }

  /**
   * The ids of `owner`'s notes below `below`, newest first (`find({ owner }).sort({ createdAt: -1 })`:
   * ids grow with creation time).
   */
  function OwnedNewestFirst(notes: map<Id, Note>, owner: Id, below: Id): seq<Id> {
    if below == 0 then []
    else
      var k: Id := below - 1;
      (if k in notes && notes[k].owner == owner then [k] else []) + OwnedNewestFirst(notes, owner, k)
  }

  /** `ids` holds exactly `owner`'s notes below `below`. */
  ghost predicate HoldsOwnedBelow(ids: seq<Id>, notes: map<Id, Note>, owner: Id, below: Id) {
    && (forall i :: 0 <= i < |ids| ==> ids[i] < below && ids[i] in notes && notes[ids[i]].owner == owner)
    && (forall k :: k < below && k in notes && notes[k].owner == owner ==> k in ids)
  }

  /** `ids` lists the newest (largest id) first. */
  ghost predicate Descending(ids: seq<Id>) {
    forall i, j :: 0 <= i < j < |ids| ==> ids[i] > ids[j]
  }

  /** One step of the newest-first list: the note just below `below`, if owned, then the older ones. */
  lemma OwnedNewestFirstStep(notes: map<Id, Note>, owner: Id, below: Id)
    requires below > 0
    ensures below - 1 in notes && notes[below - 1].owner == owner ==>
      OwnedNewestFirst(notes, owner, below) == [below - 1] + OwnedNewestFirst(notes, owner, below - 1)
    ensures !(below - 1 in notes && notes[below - 1].owner == owner) ==>
      OwnedNewestFirst(notes, owner, below) == OwnedNewestFirst(notes, owner, below - 1)
  {
  }

  /** The list `find({ owner })` produces holds exactly the owner's notes. */
  lemma {:induction false} OwnedNewestFirstHoldsOwned(notes: map<Id, Note>, owner: Id, below: Id)
    ensures HoldsOwnedBelow(OwnedNewestFirst(notes, owner, below), notes, owner, below)
  {
    if below > 0 {
      var k: Id := below - 1;
      OwnedNewestFirstHoldsOwned(notes, owner, k);
      OwnedNewestFirstStep(notes, owner, below);
      if k in notes && notes[k].owner == owner {
        HoldsOwnedPrepend(OwnedNewestFirst(notes, owner, k), notes, owner, k);
      } else {
        HoldsOwnedSkip(OwnedNewestFirst(notes, owner, k), notes, owner, k);
      }
    }
  }

  lemma HoldsOwnedPrepend(rest: seq<Id>, notes: map<Id, Note>, owner: Id, k: Id)
    requires HoldsOwnedBelow(rest, notes, owner, k)
    requires k in notes && notes[k].owner == owner
    ensures HoldsOwnedBelow([k] + rest, notes, owner, k + 1)
  {
    var ids: seq<Id> := [k] + rest;
    forall i | 1 <= i < |ids|
      ensures ids[i] < k + 1 && ids[i] in notes && notes[ids[i]].owner == owner
    {
      assert ids[i] == rest[i - 1];
    }
    forall j | j < k && j in notes && notes[j].owner == owner
      ensures j in ids
    {
      assert j in rest;
    }
  }

  lemma HoldsOwnedSkip(rest: seq<Id>, notes: map<Id, Note>, owner: Id, k: Id)
    requires HoldsOwnedBelow(rest, notes, owner, k)
    requires !(k in notes && notes[k].owner == owner)
    ensures HoldsOwnedBelow(rest, notes, owner, k + 1)
  {
  }

  /** The list `.sort({ createdAt: -1 })` produces is newest first. */
  lemma {:induction false} OwnedNewestFirstDescending(notes: map<Id, Note>, owner: Id, below: Id)
    ensures Descending(OwnedNewestFirst(notes, owner, below))
  {
    if below > 0 {
      var k: Id := below - 1;
      OwnedNewestFirstDescending(notes, owner, k);
      OwnedNewestFirstStep(notes, owner, below);
      if k in notes && notes[k].owner == owner {
        OwnedNewestFirstHoldsOwned(notes, owner, k);
        DescendingPrepend(OwnedNewestFirst(notes, owner, k), k);
      }
    }
  }

  lemma DescendingPrepend(rest: seq<Id>, k: Id)
    requires Descending(rest)
    requires forall i :: 0 <= i < |rest| ==> rest[i] < k
    ensures Descending([k] + rest)
  {
    var ids: seq<Id> := [k] + rest;
    forall i, j | 0 <= i < j < |ids|
      ensures ids[i] > ids[j]
    {
      assert ids[j] == rest[j - 1];
      if i > 0 { assert ids[i] == rest[i - 1]; }
    }
  }

  /** The newest-first list is as long as the number of owned notes below `below`. */
  lemma {:induction false} OwnedNewestFirstCount(notes: map<Id, Note>, owner: Id, below: Id)
    ensures |OwnedNewestFirst(notes, owner, below)| == |OwnedBelow(notes, owner, below)|
  {
    if below == 0 {
      assert OwnedBelow(notes, owner, below) == {};
    } else {
      var k: Id := below - 1;
      OwnedNewestFirstCount(notes, owner, k);
      OwnedNewestFirstStep(notes, owner, below);
      OwnedBelowStep(notes, owner, k);
    }
  }

  lemma OwnedBelowStep(notes: map<Id, Note>, owner: Id, k: Id)
    ensures k in notes && notes[k].owner == owner ==>
      |OwnedBelow(notes, owner, k + 1)| == |OwnedBelow(notes, owner, k)| + 1
    ensures !(k in notes && notes[k].owner == owner) ==>
      OwnedBelow(notes, owner, k + 1) == OwnedBelow(notes, owner, k)
  {
    var before, now := OwnedBelow(notes, owner, k), OwnedBelow(notes, owner, k + 1);
    var added := if k in notes && notes[k].owner == owner then {k} else {};
    assert now == before + added by {
      forall x | x in now ensures x in before + added {
        if x != k { assert x < k; }
      }
    }
    assert before !! added;
  }

  /** Storing a note at or above `below` does not change the list of notes below `below`. */
  lemma {:induction false} OwnedNewestFirstIgnoresLater(notes: map<Id, Note>, owner: Id, below: Id, x: Id, n: Note)
    requires below <= x
    ensures OwnedNewestFirst(notes[x := n], owner, below) == OwnedNewestFirst(notes, owner, below)
  {
    if below > 0 {
      OwnedNewestFirstIgnoresLater(notes, owner, below - 1, x, n);
    }
  }

  /**
   * A note just created under the next free id heads its owner's newest-first list, in front of
   * everything the owner had before: it is the first note of page 1.
   */
  lemma {:induction false} CreatedNoteComesFirst(notes: map<Id, Note>, nextId: Id, n: Note)
    requires n.id == nextId
    ensures OwnedNewestFirst(notes[nextId := n], n.owner, nextId + 1) ==
      [nextId] + OwnedNewestFirst(notes, n.owner, nextId)
  {
    OwnedNewestFirstStep(notes[nextId := n], n.owner, nextId + 1);
    OwnedNewestFirstIgnoresLater(notes, n.owner, nextId, nextId, n);
  }

  /** The note after a partial update: present fields replace, absent fields keep their value. */
  function Updated(n: Note, dto: UpdateNoteDto): (r: Note)
    ensures r.id == n.id && r.owner == n.owner
  {
    Note(n.id, dto.title.GetOr(n.title), dto.content.GetOr(n.content), dto.tags.GetOr(n.tags), n.owner)
  }

  /**
   * An update writes exactly the fields it carries and nothing else: a field it omits keeps its
   * value, an empty update changes nothing, and applying the same update twice equals applying it once.
   */
  lemma UpdateWritesOnlyPresentFields(n: Note, dto: UpdateNoteDto)
    ensures dto.title.None? ==> Updated(n, dto).title == n.title
    ensures dto.title.Some? ==> Updated(n, dto).title == dto.title.value
    ensures dto.content.None? ==> Updated(n, dto).content == n.content
    ensures dto.content.Some? ==> Updated(n, dto).content == dto.content.value
    ensures dto.tags.None? ==> Updated(n, dto).tags == n.tags
    ensures dto.tags.Some? ==> Updated(n, dto).tags == dto.tags.value
    ensures dto == UpdateNoteDto(None, None, None) ==> Updated(n, dto) == n
    ensures Updated(Updated(n, dto), dto) == Updated(n, dto)
  {
  }

  /** The message of the `ForbiddenException` each guarded operation throws. */
  function ForbiddenMessage(a: Action): string {
    match a
    case AccessNote => "You do not have permission to access this note"
    case UpdateNote => "You do not have permission to update this note"
    case DeleteNote => "You do not have permission to delete this note"
  }

  /**
   * The HTTP exception a refusal is thrown as: `NotFoundException('Note not found')` or
   * `ForbiddenException(message)`, whose responses carry the message and the status's label.
   */
  function AsException(e: NoteError): (x: ExceptionFilter.Exception)
    ensures x.HttpException? && x.response.ObjectResponse?
    ensures x.status == (if e.NotFound? then 404 else 403)
  {
    match e
    case NotFound =>
      ExceptionFilter.HttpException(404,
        ExceptionFilter.ObjectResponse(Some(ExceptionFilter.Str("Note not found")), Some(ExceptionFilter.Str("Not Found"))))
    case Forbidden(a) =>
      ExceptionFilter.HttpException(403,
        ExceptionFilter.ObjectResponse(Some(ExceptionFilter.Str(ForbiddenMessage(a))), Some(ExceptionFilter.Str("Forbidden"))))
  }

  /**
   * Through the exception filter a missing note answers 404 "Note not found" and another user's
   * note answers 403 with the operation's message: the two refusals are told apart.
   */
  lemma RefusalReplies(e: NoteError)
    ensures var r := ExceptionFilter.Catch(AsException(e));
      && r.status == r.body.statusCode
      && (e.NotFound? ==> r.status == 404 && r.body.message == ExceptionFilter.Str("Note not found")
                          && r.body.error == ExceptionFilter.Str("Not Found"))
      && (e.Forbidden? ==> r.status == 403 && r.body.message == ExceptionFilter.Str(ForbiddenMessage(e.action))
                           && r.body.error == ExceptionFilter.Str("Forbidden"))
  {
  }

  /** The note collection behind `NotesService`. */
  class NotesService {
    var notes: map<Id, Note>
    var nextId: Id

    /** Every note sits under its own id, and every id is below the next id to be handed out. */
    ghost predicate Valid()
      reads this
    {
      forall k :: k in notes ==> k < nextId && notes[k].id == k
    }

    constructor ()
      ensures Valid() && notes == map[]
    {
      notes := map[];
      nextId := 0;
    }

    /**
     * `create`: stores one new note, the newest, owned by the caller and carrying the request's
     * title, content and tags (none given: no tags); every other note is unchanged. The schema
     * requires a title and a content, so saving a note with either empty fails and stores nothing.
     */
    method Create(dto: CreateNoteDto, userId: Id) returns (r: Result<Note, CreateError>)
      requires Valid()
      modifies this
      ensures Valid()
      ensures r.Err? <==> dto.title == "" || dto.content == ""
      ensures r.Err? ==> notes == old(notes) && nextId == old(nextId)
      ensures r.Ok? ==> r.value.id == old(nextId) && r.value.id !in old(notes) && notes == old(notes)[r.value.id := r.value]
      ensures r.Ok? ==> r.value.owner == userId && r.value.title == dto.title && r.value.content == dto.content
      ensures r.Ok? ==> r.value.tags == dto.tags.GetOr([])
      ensures r.Ok? ==> forall k :: k in old(notes) ==> k < r.value.id
    {
      if dto.title == "" || dto.content == "" {
        return Err(RequiredFieldEmpty);
      }
      var n := Note(nextId, dto.title, dto.content, dto.tags.GetOr([]), userId);
      notes := notes[nextId := n];
      nextId := nextId + 1;
      return Ok(n);
    }

    /**
     * The ownership check shared by read, update and delete: an absent note is NotFound whoever
     * asks, a note owned by someone else is Forbidden, and only the owner gets the note.
     */
    function Authorize(id: Id, userId: Id, action: Action): (r: Result<Note, NoteError>)
      reads this
      requires Valid()
      ensures r == Err(NotFound) <==> id !in notes
      ensures r == Err(Forbidden(action)) <==> id in notes && notes[id].owner != userId
      ensures r.Ok? <==> id in notes && notes[id].owner == userId
      ensures r.Ok? ==> r.value == notes[id] && r.value.id == id
    {
      if id !in notes then Err(NotFound)
      else if notes[id].owner != userId then Err(Forbidden(action))
      else Ok(notes[id])
    }

    /** `findOne`: the caller's note with that id; NotFound before Forbidden. */
    function FindOne(id: Id, userId: Id): (r: Result<Note, NoteError>)
      reads this
      requires Valid()
      ensures r.Ok? <==> id in notes && notes[id].owner == userId
      ensures r.Ok? ==> r.value == notes[id] && r.value.id == id && r.value.owner == userId
      ensures r.Err? ==> r.error == (if id !in notes then NotFound else Forbidden(AccessNote))
    {
      Authorize(id, userId, AccessNote)
    }

    /**
     * `findAll`: one page of the caller's notes, newest first. The page is the run of the caller's
     * notes that starts after `(page - 1) * limit` of them and holds at most `limit`; `total` counts
     * all the caller's notes and `pages` is the ceiling of `total / limit`.
     */
    function FindAll(userId: Id, q: PaginationQuery): (r: Page)
      reads this
      requires Valid() && ValidQuery(q)
      ensures r.total == |Owned(notes, userId)| == |OwnedNewestFirst(notes, userId, nextId)|
      ensures forall i :: 0 <= i < |r.notes| ==>
        r.notes[i].id in notes && notes[r.notes[i].id] == r.notes[i] && r.notes[i].owner == userId
      ensures forall i, j :: 0 <= i < j < |r.notes| ==> r.notes[i].id > r.notes[j].id
      ensures |r.notes| <= Limit(q)
      ensures |r.notes| == if Skip(q) >= r.total then 0 else Min(Limit(q), r.total - Skip(q))
      ensures forall i :: 0 <= i < |r.notes| ==> r.notes[i].id == OwnedNewestFirst(notes, userId, nextId)[Skip(q) + i]
      ensures (r.pages - 1) * Limit(q) < r.total <= r.pages * Limit(q)
    {
      var ids := OwnedNewestFirst(notes, userId, nextId);
      OwnedNewestFirstHoldsOwned(notes, userId, nextId);
      OwnedNewestFirstDescending(notes, userId, nextId);
      var total := |Owned(notes, userId)|;
      assert |ids| == total by {
        OwnedNewestFirstCount(notes, userId, nextId);
        assert OwnedBelow(notes, userId, nextId) == Owned(notes, userId);
      }
      var window := Window(ids, Skip(q), Limit(q));
      var stored := notes;
      var fetched := seq(|window|, i requires 0 <= i < |window| => stored[window[i]]);
      Page(fetched, total, CeilDiv(total, Limit(q)))
    }

    /**
     * `update`: only the owner may update; the note then takes the request's fields and keeps its
     * id and owner, and every other note is unchanged. A refused update writes nothing.
     */
    method Update(id: Id, dto: UpdateNoteDto, userId: Id) returns (r: Result<Note, NoteError>)
      requires Valid()
      modifies this
      ensures Valid() && nextId == old(nextId)
      ensures r.Ok? <==> id in old(notes) && old(notes)[id].owner == userId
      ensures r.Ok? ==> r.value == Updated(old(notes)[id], dto) && notes == old(notes)[id := r.value]
      ensures r.Ok? ==> r.value.owner == userId && r.value.id == id
      ensures r.Err? ==> notes == old(notes)
      ensures r.Err? ==> r.error == (if id !in old(notes) then NotFound else Forbidden(UpdateNote))
    {
      var gate := Authorize(id, userId, UpdateNote);
      if gate.Err? {
        return Err(gate.error);
      }
      var n := Updated(gate.value, dto);
      notes := notes[id := n];
      return Ok(n);
    }

    /**
     * `remove`: only the owner may delete; exactly that note is removed and returned, and every
     * other note is unchanged. A refused delete removes nothing.
     */
    method Remove(id: Id, userId: Id) returns (r: Result<Note, NoteError>)
      requires Valid()
      modifies this
      ensures Valid() && nextId == old(nextId)
      ensures r.Ok? <==> id in old(notes) && old(notes)[id].owner == userId
      ensures r.Ok? ==> r.value == old(notes)[id] && notes == old(notes) - {id}
      ensures r.Err? ==> notes == old(notes)
      ensures r.Err? ==> r.error == (if id !in old(notes) then NotFound else Forbidden(DeleteNote))
    {
      var gate := Authorize(id, userId, DeleteNote);
      if gate.Err? {
        return Err(gate.error);
      }
      notes := notes - {id};
      return Ok(gate.value);
    }
  }

  /** `.skip(skip).limit(limit)`: the run of at most `limit` ids that starts after the first `skip`. */
  function Window(ids: seq<Id>, skip: nat, limit: int): (w: seq<Id>)
    requires limit >= 1
    ensures |w| == if skip >= |ids| then 0 else Min(limit, |ids| - skip)
    ensures forall i :: 0 <= i < |w| ==> skip + i < |ids| && w[i] == ids[skip + i]
  {
    if skip >= |ids| then [] else ids[skip..Min(skip + limit, |ids|)]
  }

  function Min(a: int, b: int): int {
    if a < b then a else b
  }

  /**
   * Paging reaches every position: with pages of `limit`, position `d * limit + m` (`m < limit`) of
   * a newest-first list is at offset `m` of the window that skips `d * limit`, i.e. of page `d + 1`,
   * and that page is among the `CeilDiv(|ids|, limit)` pages.
   */
  lemma {:induction false} PagingReachesEveryPosition(ids: seq<Id>, limit: int, d: nat, m: nat)
    requires limit >= 1 && m < limit && d * limit + m < |ids|
    ensures var w := Window(ids, d * limit, limit);
      m < |w| && w[m] == ids[d * limit + m] && d + 1 <= CeilDiv(|ids|, limit)
  {
    PageExists(|ids|, limit, CeilDiv(|ids|, limit), d, m);
  }

  /** A position `d * limit + m` below `total` lies on page `d + 1`, which is within the `pages` that hold `total`. */
  lemma PageExists(total: nat, limit: int, pages: nat, d: nat, m: nat)
    requires limit >= 1 && m < limit && d * limit + m < total <= pages * limit
    ensures d + 1 <= pages
  {
    if pages < d + 1 {
      MonotoneProduct(pages, d, limit);
    }
  }

  lemma MonotoneProduct(a: int, b: int, c: int)
    requires a <= b && c >= 1
    ensures a * c <= b * c
  {
  }

  /** Twelve owned notes, page 2 with limit 5: five notes, a total of 12, three pages. */
  lemma {:induction false} SecondPageOfTwelve(s: NotesService, userId: Id)
    requires s.Valid() && |Owned(s.notes, userId)| == 12
    ensures var r := s.FindAll(userId, PaginationQuery(Some(5), Some(2)));
      |r.notes| == 5 && r.total == 12 && r.pages == 3
  {
    var r := s.FindAll(userId, PaginationQuery(Some(5), Some(2)));
    assert (r.pages - 1) * 5 < 12 <= r.pages * 5;
  }
}
