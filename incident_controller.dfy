/**
 * The Spring REST controller for incidents over the incidents table. The table is a map from id
 * to row plus the identity counter; the clock reading and `LocalDateTime.parse` are parameters.
 */
module IncidentApi {
  import opened Wrappers
  import opened Http
  import opened JavaStrings
  import opened Sorting
  import opened Jpa
  import opened IncidentEntity

  /** The sort key of `findAllByOrderByCreatedAtDesc`. */
  function CreatedAt(d: IncidentData): int {
    d.createdAt
  }

  /** Every row is stored under its own id, and every id lies below the identity counter. */
  predicate TableValid(rows: map<int, IncidentData>, nextId: int) {
    forall k :: k in rows ==> rows[k].id == Some(k) && k < nextId
  }

  /** Every stored row keeps the lifecycle invariant. */
  predicate TableConsistent(rows: map<int, IncidentData>) {
    forall k :: k in rows ==> ResolutionConsistent(rows[k])
  }

  /** `incidentRepository.save(d)`. */
  function SaveIncident(rows: map<int, IncidentData>, nextId: int, d: IncidentData): (s: Saved<IncidentData>)
    ensures s.row.id.Some? && s.rows == rows[s.row.id.value := s.row]
    ensures s.row == d.(id := s.row.id)
  {
    SaveRow(rows, nextId, d, d.id, d.(id := Some(nextId)))
  }

  /**
   * Saving keeps the table well formed; a row whose id is stored keeps it, and any other row is
   * stored under a fresh id, the counter moving past it.
   */
  lemma SaveIncidentValid(rows: map<int, IncidentData>, nextId: int, d: IncidentData)
    requires TableValid(rows, nextId)
    ensures var s := SaveIncident(rows, nextId, d);
            && TableValid(s.rows, s.nextId)
            && (d.id.Some? && d.id.value in rows ==> s.row == d && s.nextId == nextId)
            && (!(d.id.Some? && d.id.value in rows) ==>
                  s.row.id == Some(nextId) && nextId !in rows && s.nextId == nextId + 1)
  {
  }

  /** Saving a row that keeps the invariant into a table that keeps it gives a table that keeps it. */
  lemma SaveIncidentConsistent(rows: map<int, IncidentData>, nextId: int, d: IncidentData)
    requires TableConsistent(rows) && ResolutionConsistent(d)
    ensures TableConsistent(SaveIncident(rows, nextId, d).rows)
  {
  }

  /** The defaults `createIncident` fills in before saving: author, severity and status. */
  function WithDefaults(d: IncidentData): (r: IncidentData)
    ensures !IsBlank(d.createdBy) ==> r.createdBy == d.createdBy
    ensures IsBlank(d.createdBy) ==> r.createdBy == Some("Anonymous")
    ensures d.severity.Some? ==> r.severity == d.severity
    ensures d.severity.None? ==> r.severity == Some(MEDIUM)
    ensures d.status.Some? ==> r.status == d.status
    ensures d.status.None? ==> r.status == Some(OPEN)
    ensures r.(createdBy := d.createdBy, severity := d.severity, status := d.status) == d
  {
    d.(createdBy := if IsBlank(d.createdBy) then Some("Anonymous") else d.createdBy,
       severity := if d.severity.None? then Some(MEDIUM) else d.severity,
       status := if d.status.None? then Some(OPEN) else d.status)
  }

  /** After the defaults, an incident has a non-blank author, a severity and a status. */
  lemma WithDefaultsComplete(d: IncidentData)
    ensures var r := WithDefaults(d);
            !IsBlank(r.createdBy) && r.severity.Some? && r.status.Some?
  {
    if IsBlank(d.createdBy) {
      IsBlankIff(Some("Anonymous"));
      assert !IsTrimmed("Anonymous"[0]);
    }
  }

  /**
   * `createIncident` keeps resolution fields sent in the request body whatever the status, so a
   * new OPEN incident can already carry a resolver.
   */
  lemma CreateMayStoreResolution()
    ensures var d := IncidentData(None, Some("Disk full"), None, None, None, 0, None, None, Some("ops"), None);
            && !IsBlank(d.title)
            && WithDefaults(d).status == Some(OPEN)
            && !ResolutionConsistent(WithDefaults(d))
  {
    IsBlankIff(Some("Disk full"));
    assert !IsTrimmed("Disk full"[0]);
  }

  /** The value `statusUpdate.get(key)`: None when the key is absent. */
  function Field(update: map<string, string>, key: string): (r: Option<string>)
    ensures r.Some? <==> key in update
    ensures r.Some? ==> r.value == update[key]
  {
    if key in update then Some(update[key]) else None
  }

  /** The outcome of a status change: the changed row, a rejected status name, or an uncaught exception. */
  datatype StatusChange = Changed(row: IncidentData) | Rejected | Failed

  /**
   * The status change `updateIncidentStatus` makes to a stored row. A missing status makes
   * `Status.valueOf(null)` throw NullPointerException and an unparsable resolution time makes
   * `LocalDateTime.parse` throw DateTimeParseException; neither is caught, so both fail without
   * saving. An unknown status name throws IllegalArgumentException, which is caught and rejected.
   */
  function ApplyStatusUpdate(d: IncidentData, update: map<string, string>, now: int,
                             parse: string -> Option<int>): (r: StatusChange)
    ensures r.Rejected? <==> "status" in update && StatusValueOf(update["status"]).None?
    ensures r.Failed? <==>
              || "status" !in update
              || (&& StatusValueOf(update["status"]) == Some(RESOLVED)
                  && "resolvedAt" in update
                  && parse(Without(update["resolvedAt"], 'Z')).None?)
    ensures r.Changed? ==>
              && r.row.(status := d.status, resolutionComment := d.resolutionComment,
                        resolvedBy := d.resolvedBy, resolvedAt := d.resolvedAt) == d
              && r.row.status == StatusValueOf(update["status"])
              && ResolutionConsistent(r.row)
    ensures r.Changed? && r.row.status == Some(RESOLVED) ==>
              && r.row.resolutionComment == Field(update, "resolutionComment")
              && r.row.resolvedBy == Field(update, "resolvedBy")
              && ("resolvedAt" !in update ==> r.row.resolvedAt == Some(now))
              && ("resolvedAt" in update ==> r.row.resolvedAt == parse(Without(update["resolvedAt"], 'Z')))
  {
    if "status" !in update then Failed
    else match StatusValueOf(update["status"])
      case None => Rejected
      case Some(s) =>
        if s != RESOLVED then
          Changed(d.(status := Some(s), resolutionComment := None, resolvedBy := None, resolvedAt := None))
        else
          var resolved := d.(status := Some(s), resolutionComment := Field(update, "resolutionComment"),
                             resolvedBy := Field(update, "resolvedBy"));
          if "resolvedAt" !in update then Changed(resolved.(resolvedAt := Some(now)))
          else match parse(Without(update["resolvedAt"], 'Z'))
            case None => Failed
            case Some(t) => Changed(resolved.(resolvedAt := Some(t)))
  }

  /** Reopening a resolved incident and resolving it again does not bring back the old resolution. */
  lemma ReopenForgetsResolution(d: IncidentData, reopen: map<string, string>, resolve: map<string, string>,
                                t1: int, t2: int, parse: string -> Option<int>)
    requires "status" in reopen && StatusValueOf(reopen["status"]).Some?
    requires StatusValueOf(reopen["status"]) != Some(RESOLVED)
    requires "status" in resolve && resolve["status"] == "RESOLVED" && "resolvedAt" !in resolve
    ensures var c1 := ApplyStatusUpdate(d, reopen, t1, parse);
            && c1.Changed? && ResolutionCleared(c1.row)
            && var c2 := ApplyStatusUpdate(c1.row, resolve, t2, parse);
               && c2.Changed?
               && c2.row.resolutionComment == Field(resolve, "resolutionComment")
               && c2.row.resolvedBy == Field(resolve, "resolvedBy")
               && c2.row.resolvedAt == Some(t2)
  {
  }

  class IncidentController {
    var rows: map<int, IncidentData>
    var nextId: int

    ghost predicate Valid()
      reads this
    {
      TableValid(rows, nextId)
    }

    ghost predicate Consistent()
      reads this
    {
      TableConsistent(rows)
    }

    /** A controller over an empty table whose identity sequence starts at 1. */
    constructor ()
      ensures Valid() && Consistent()
      ensures rows == map[] && nextId == 1
    {
      rows := map[];
      nextId := 1;
    }

    /** `incidentRepository.save(d)`. */
    method Save(d: IncidentData) returns (saved: IncidentData)
      requires Valid()
      modifies this
      ensures Valid()
      ensures var s := SaveIncident(old(rows), old(nextId), d);
              saved == s.row && rows == s.rows && nextId == s.nextId
    {
      SaveIncidentValid(rows, nextId, d);
      var s := SaveIncident(rows, nextId, d);
      rows, nextId := s.rows, s.nextId;
      saved := s.row;
    }

    /** GET /api/incidents: every stored incident once, newest first. */
    method GetAllIncidents() returns (r: Reply<seq<IncidentData>>)
      requires Valid()
      ensures r.Ok? && SortedDesc(r.body, CreatedAt) && |r.body| == |rows|
      ensures forall k :: k in rows ==> rows[k] in r.body
      ensures forall x :: x in r.body ==> x.id.Some? && x.id.value in rows && rows[x.id.value] == x
    {
      var list := ValuesSortedDesc(rows, CreatedAt);
      forall x | x in list
        ensures x.id.Some? && x.id.value in rows && rows[x.id.value] == x
      {
        if forall k :: k in rows ==> rows[k] != x {
          assert false;
        }
        var k :| k in rows && rows[k] == x;
      }
      r := Ok(list);
    }

    /** GET /api/incidents/{id}: the stored row, or 404. */
    method GetIncidentById(id: int) returns (r: Reply<IncidentData>)
      requires Valid()
      ensures id in rows ==> r.Ok? && r.body == rows[id] && r.body.id == Some(id)
      ensures id !in rows ==> r == NotFound
    {
      if id in rows {
        r := Ok(rows[id]);
      } else {
        r := NotFound;
      }
    }

    /**
     * POST /api/incidents: 400 for a blank title; otherwise the defaults are filled into the
     * request object and it is saved; a request without an id receives the generated one, since
     * `save` persists it, while one sent with an id is merged and keeps the id it came with.
     */
    method CreateIncident(incident: Incident) returns (r: Reply<IncidentData>)
      requires Valid()
      modifies this, incident
      ensures Valid()
      ensures IsBlank(old(incident.title)) ==>
                && r == BadRequest && rows == old(rows) && nextId == old(nextId)
                && incident.Data() == old(incident.Data())
      ensures !IsBlank(old(incident.title)) ==>
                var s := SaveIncident(old(rows), old(nextId), WithDefaults(old(incident.Data())));
                && r == Created(s.row) && rows == s.rows && nextId == s.nextId
                && incident.Data() == if old(incident.id).None? then s.row
                                      else WithDefaults(old(incident.Data()))
      ensures old(Consistent()) && (r.Created? ==> ResolutionConsistent(r.body)) ==> Consistent()
    {
      if IsBlank(incident.title) {
        return BadRequest;
      }
      if IsBlank(incident.createdBy) {
        incident.SetCreatedBy(Some("Anonymous"));
      }
      if incident.severity.None? {
        incident.SetSeverity(Some(MEDIUM));
      }
      if incident.status.None? {
        incident.SetStatus(Some(OPEN));
      }
      assert incident.Data() == WithDefaults(old(incident.Data()));
      ghost var before := rows;
      var saved := Save(incident.Data());
      if incident.id.None? {
        // persist writes the generated id into the entity itself; merge leaves its argument as it was
        incident.SetId(saved.id);
      }
      r := Created(saved);
      if TableConsistent(before) && ResolutionConsistent(saved) {
        SaveIncidentConsistent(before, old(nextId), WithDefaults(old(incident.Data())));
      }
    }

    /**
     * PATCH /api/incidents/{id}/status: 404 for an unknown id; otherwise the loaded incident is
     * changed through its setters as `ApplyStatusUpdate` describes and saved back, or the
     * request is rejected (400) or fails (500) with the table unchanged.
     */
    method UpdateIncidentStatus(id: int, update: map<string, string>, now: int,
                                parse: string -> Option<int>) returns (r: Reply<IncidentData>)
      requires Valid()
      modifies this
      ensures Valid() && nextId == old(nextId)
      ensures id !in old(rows) ==> r == NotFound && rows == old(rows)
      ensures id in old(rows) ==>
                var c := ApplyStatusUpdate(old(rows)[id], update, now, parse);
                && (c.Changed? ==> r == Ok(c.row) && rows == old(rows)[id := c.row])
                && (c.Rejected? ==> r == BadRequest && rows == old(rows))
                && (c.Failed? ==> r == ServerError && rows == old(rows))
      ensures old(Consistent()) ==> Consistent()
    {
      if id !in rows {
        return NotFound;
      }
      var incident := new Incident.Load(rows[id]);
      if "status" !in update {
        return ServerError;
      }
      var newStatus := StatusValueOf(update["status"]);
      if newStatus.None? {
        return BadRequest;
      }
      incident.SetStatus(newStatus);
      if newStatus == Some(RESOLVED) {
        incident.SetResolutionComment(Field(update, "resolutionComment"));
        incident.SetResolvedBy(Field(update, "resolvedBy"));
        if "resolvedAt" in update {
          var resolvedAt := parse(Without(update["resolvedAt"], 'Z'));
          if resolvedAt.None? {
            return ServerError;
          }
          incident.SetResolvedAt(resolvedAt);
        } else {
          incident.SetResolvedAt(Some(now));
        }
      } else {
        incident.SetResolutionComment(None);
        incident.SetResolvedBy(None);
        incident.SetResolvedAt(None);
      }
      var updated := Save(incident.Data());
      r := Ok(updated);
    }

    /** DELETE /api/incidents/{id}: 204 after removing a stored row, 404 otherwise. */
    method DeleteIncident(id: int) returns (r: Reply<()>)
      requires Valid()
      modifies this
      ensures Valid() && nextId == old(nextId)
      ensures id in old(rows) ==> r == NoContent && rows == old(rows) - {id}
      ensures id !in old(rows) ==> r == NotFound && rows == old(rows)
      ensures old(Consistent()) ==> Consistent()
    {
      if id in rows {
        rows := rows - {id};
        r := NoContent;
      } else {
        r := NotFound;
      }
    }

    /** GET /api/incidents/health: always 200 with body "OK", touching nothing. */
    method Health() returns (r: Reply<string>)
      ensures r.Ok? && r.body == "OK" && r.Code() == 200
    {
      r := Ok("OK");
    }
  }
}
