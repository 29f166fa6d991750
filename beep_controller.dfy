/**
 * The Spring REST controller for beeps, short signed messages, over the beeps table: a map from
 * id to row plus the identity counter.
 */
module BeepApi {
  import opened Wrappers
  import opened Http
  import opened JavaStrings
  import opened Sorting
  import opened Jpa

  /** The field values of a beep; a null field is None. */
  datatype Beep = Beep(id: Option<int>, message: Option<string>, author: Option<string>, createdAt: int)

  /** The sort key of `findAllByOrderByCreatedAtDesc`. */
  function CreatedAt(b: Beep): int {
    b.createdAt
  }

  /** Every row is stored under its own id, and every id lies below the identity counter. */
  predicate TableValid(rows: map<int, Beep>, nextId: int) {
    forall k :: k in rows ==> rows[k].id == Some(k) && k < nextId
  }

  /** `beepRepository.save(b)`. */
  function SaveBeep(rows: map<int, Beep>, nextId: int, b: Beep): (s: Saved<Beep>)
    ensures s.row.id.Some? && s.rows == rows[s.row.id.value := s.row]
    ensures s.row == b.(id := s.row.id)
  {
    SaveRow(rows, nextId, b, b.id, b.(id := Some(nextId)))
  }

  /**
   * Saving keeps the table well formed; a beep whose id is stored keeps it, and any other beep
   * is stored under a fresh id, the counter moving past it.
   */
  lemma SaveBeepValid(rows: map<int, Beep>, nextId: int, b: Beep)
    requires TableValid(rows, nextId)
    ensures var s := SaveBeep(rows, nextId, b);
            && TableValid(s.rows, s.nextId)
            && (b.id.Some? && b.id.value in rows ==> s.row == b && s.nextId == nextId)
            && (!(b.id.Some? && b.id.value in rows) ==>
                  s.row.id == Some(nextId) && nextId !in rows && s.nextId == nextId + 1)
  {
  }

  /** The author `createBeep` stores: the given one unless blank, "Anonymous" otherwise. */
  function WithAuthor(b: Beep): (r: Beep)
    ensures !IsBlank(b.author) ==> r == b
    ensures IsBlank(b.author) ==> r == b.(author := Some("Anonymous"))
    ensures !IsBlank(r.author)
  {
    if IsBlank(b.author) then
      IsBlankIff(Some("Anonymous"));
      assert !IsTrimmed("Anonymous"[0]);
      b.(author := Some("Anonymous"))
    else b
  }

  class BeepController {
    var rows: map<int, Beep>
    var nextId: int

    ghost predicate Valid()
      reads this
    {
      TableValid(rows, nextId)
    }

    /** A controller over an empty table whose identity sequence starts at 1. */
    constructor ()
      ensures Valid() && rows == map[] && nextId == 1
    {
      rows := map[];
      nextId := 1;
    }

    /** GET /api/beeps: every stored beep once, newest first. */
    method GetAllBeeps() returns (r: Reply<seq<Beep>>)
      requires Valid()
      ensures r.Ok? && SortedDesc(r.body, CreatedAt) && |r.body| == |rows|
      ensures forall k :: k in rows ==> rows[k] in r.body
      ensures forall x :: x in r.body ==> x.id.Some? && x.id.value in rows && rows[x.id.value] == x
    {
      var list := ValuesSortedDesc(rows, CreatedAt);
      forall x | x in list
        ensures x.id.Some? && x.id.value in rows && rows[x.id.value] == x
      {
        if forall k :: k in rows ==> rows[k] != x {
          assert false;
        }
        var k :| k in rows && rows[k] == x;
      }
      r := Ok(list);
    }

    /** GET /api/beeps/{id}: the stored beep, or 404. */
    method GetBeepById(id: int) returns (r: Reply<Beep>)
      requires Valid()
      ensures id in rows ==> r.Ok? && r.body == rows[id] && r.body.id == Some(id)
      ensures id !in rows ==> r == NotFound
    {
      if id in rows {
        r := Ok(rows[id]);
      } else {
        r := NotFound;
      }
    }

    /** POST /api/beeps: 400 for a blank message; otherwise the beep is saved with an author. */
    method CreateBeep(beep: Beep) returns (r: Reply<Beep>)
      requires Valid()
      modifies this
      ensures Valid()
      ensures IsBlank(beep.message) ==> r == BadRequest && rows == old(rows) && nextId == old(nextId)
      ensures !IsBlank(beep.message) ==>
                var s := SaveBeep(old(rows), old(nextId), WithAuthor(beep));
                r == Created(s.row) && rows == s.rows && nextId == s.nextId
    {
      if IsBlank(beep.message) {
        return BadRequest;
      }
      var b := WithAuthor(beep);
      SaveBeepValid(rows, nextId, b);
      var s := SaveBeep(rows, nextId, b);
      rows, nextId := s.rows, s.nextId;
      r := Created(s.row);
    }

    /** DELETE /api/beeps/{id}: 204 after removing a stored beep, 404 otherwise. */
    method DeleteBeep(id: int) returns (r: Reply<()>)
      requires Valid()
      modifies this
      ensures Valid() && nextId == old(nextId)
      ensures id in old(rows) ==> r == NoContent && rows == old(rows) - {id}
      ensures id !in old(rows) ==> r == NotFound && rows == old(rows)
    {
      if id in rows {
        rows := rows - {id};
        r := NoContent;
      } else {
        r := NotFound;
      }
    }

    /** GET /api/beeps/health: always 200 with body "OK", touching nothing. */
    method Health() returns (r: Reply<string>)
      ensures r.Ok? && r.body == "OK" && r.Code() == 200
    {
      r := Ok("OK");
    }
  }
}
