/**
 * The mock incident API server: a module-level array of incident records and an id counter,
 * changed in place by the create, status-update and delete handlers, and read by the list and
 * get handlers. Timestamps are milliseconds since the epoch; the handlers' "now" is a parameter.
 */
module MockApi {
  import opened Wrappers
  import opened Js
  import opened Http
  import opened Sorting

  /** The one status value the status handler treats specially. */
  const Resolved := "RESOLVED"

  /**
   * An incident record. Severity and status are whatever strings the client sent (the server does
   * not check them); a status update without a status leaves the status undefined.
   */
  datatype Incident = Incident(
    id: int,
    title: JsString,
    description: string,
    severity: string,
    status: JsString,
    createdAt: int,
    createdBy: string,
    resolutionComment: JsString,
    resolvedBy: JsString,
    resolvedAt: Option<int>)

  /** The JSON body of a create request. */
  datatype CreateBody = CreateBody(
    title: JsString,
    description: JsString,
    severity: JsString,
    status: JsString,
    createdBy: JsString)

  /** The JSON body of a status update; `resolvedAt` is None when the field is falsy. */
  datatype StatusBody = StatusBody(
    status: JsString,
    resolutionComment: JsString,
    resolvedBy: JsString,
    resolvedAt: Option<int>)

  /** The sort key of the list handler. */
  function CreatedAt(inc: Incident): int {
    inc.createdAt
  }

  /** All three resolution fields are unset. */
  predicate NoResolution(inc: Incident) {
    inc.resolutionComment.None? && inc.resolvedBy.None? && inc.resolvedAt.None?
  }

  /** The lifecycle invariant: a record that is not RESOLVED carries no resolution field. */
  predicate ResolutionConsistent(inc: Incident) {
    inc.status != Some(Resolved) ==> NoResolution(inc)
  }

  predicate UniqueIds(s: seq<Incident>) {
    forall i, j :: 0 <= i < j < |s| ==> s[i].id != s[j].id
  }

  /**
   * A seed record as written in the server's initial array: its creation time and resolution time
   * are given as an age in milliseconds before start-up.
   */
  datatype SeedRow =
    | Unresolved(title: string, description: string, severity: string, status: string,
                 age: int, createdBy: string)
    | ResolvedRow(title: string, description: string, severity: string, age: int, createdBy: string,
                  comment: string, resolvedBy: string, resolvedAge: int)

  /** Row `id` of the initial array. */
  function SeedRowAt(id: int): SeedRow
    requires 1 <= id <= 12
  {
    if id == 1 then
      Unresolved("Production Database Connection Timeout",
                 "Users unable to access application due to database connectivity issues",
                 "CRITICAL", "INVESTIGATING", 300000, "Mohamed Ben Ali")
    else if id == 2 then
      Unresolved("API Response Times Increased",
                 "Average response time increased by 200ms across all endpoints",
                 "HIGH", "OPEN", 3600000, "Fatma Bouazizi")
    else if id == 3 then
      ResolvedRow("Memory Usage Spike on Server 3",
                  "Memory utilization reached 85% on production server",
                  "MEDIUM", 7200000, "Ahmed Trabelsi",
                  "Restarted application pods and cleared memory cache", "Youssef Hammami", 3600000)
    else if id == 4 then
      Unresolved("Minor UI Alignment Issue",
                 "Button slightly misaligned on mobile devices",
                 "LOW", "OPEN", 10800000, "Amira Chaabane")
    else if id == 5 then
      ResolvedRow("SSL Certificate Expiry Warning",
                  "Certificate expires in 7 days for api.example.com",
                  "HIGH", 14400000, "Khalil Mansouri",
                  "Renewed certificate and updated load balancer", "Nour El Houda", 10800000)
    else if id == 6 then
      ResolvedRow("Disk Space Running Low on DB Server",
                  "Only 15% disk space remaining",
                  "MEDIUM", 18000000, "Rania Belhadj",
                  "Cleaned old logs and archived data", "Youssef Hammami", 14400000)
    else if id == 7 then
      ResolvedRow("Failed Deployment to Staging",
                  "CI/CD pipeline failed at integration test stage",
                  "MEDIUM", 21600000, "Amine Jebali",
                  "Fixed failing test and redeployed", "Sami Khelifi", 18000000)
    else if id == 8 then
      ResolvedRow("Cache Invalidation Issue",
                  "Users seeing stale data after updates",
                  "HIGH", 25200000, "Mariem Gharbi",
                  "Implemented proper cache busting strategy", "Nour El Houda", 21600000)
    else if id == 9 then
      Unresolved("Network Latency in Tunisia DC",
                 "High latency detected between Tunis and Sfax data centers",
                 "HIGH", "INVESTIGATING", 1800000, "Houssem Mejri")
    else if id == 10 then
      Unresolved("Authentication Service Down",
                 "Users cannot login to the platform",
                 "CRITICAL", "OPEN", 600000, "Ines Ben Salah")
    else if id == 11 then
      ResolvedRow("Backup Job Failed",
                  "Nightly backup job failed for production database",
                  "MEDIUM", 28800000, "Bilel Sassi",
                  "Fixed storage permissions and re-ran backup successfully", "Sami Khelifi", 25200000)
    else
      Unresolved("Email Notification Delay",
                 "Email notifications are delayed by 30 minutes",
                 "LOW", "OPEN", 5400000, "Hajer Mahjoub")
  }

  /** Seed record `id`, stamped relative to start-up time `now`. */
  function SeedRecord(id: int, now: int): (r: Incident)
    requires 1 <= id <= 12
    ensures r.id == id && ResolutionConsistent(r)
  {
    match SeedRowAt(id)
    case Unresolved(title, description, severity, status, age, createdBy) =>
      Incident(id, Some(title), description, severity, Some(status), now - age, createdBy, None, None, None)
    case ResolvedRow(title, description, severity, age, createdBy, comment, resolvedBy, resolvedAge) =>
      Incident(id, Some(title), description, severity, Some(Resolved), now - age, createdBy,
               Some(comment), Some(resolvedBy), Some(now - resolvedAge))
  }

  /** The twelve records the server starts with, in array order, ids 1 to 12. */
  function Seed(now: int): (s: seq<Incident>)
    ensures |s| == 12
    ensures forall i :: 0 <= i < |s| ==> s[i].id == i + 1 && ResolutionConsistent(s[i])
  {
    seq(12, i requires 0 <= i < 12 => SeedRecord(i + 1, now))
  }

  /** `findIndex(i => i.id === id)`: the first position holding `id`, or -1. */
  function Position(s: seq<Incident>, id: int): (k: int)
    ensures -1 <= k < |s|
    ensures k == -1 <==> forall i :: 0 <= i < |s| ==> s[i].id != id
    ensures k >= 0 ==> s[k].id == id && forall i :: 0 <= i < k ==> s[i].id != id
  {
    if s == [] then -1
    else if s[0].id == id then 0
    else
      var k := Position(s[1..], id);
      if k == -1 then -1 else k + 1
  }

  /** `splice(k, 1)`: the sequence without its element at `k`, the rest in order. */
  function RemoveAt(s: seq<Incident>, k: int): (r: seq<Incident>)
    requires 0 <= k < |s|
    ensures |r| == |s| - 1
    ensures forall i :: 0 <= i < k ==> r[i] == s[i]
    ensures forall i :: k <= i < |r| ==> r[i] == s[i + 1]
    ensures multiset(r) + multiset{s[k]} == multiset(s)
  {
    assert s == s[..k] + [s[k]] + s[k + 1..];
    s[..k] + s[k + 1..]
  }

  /**
   * The store invariant: ids are unique, every id was issued and every issued id lies below the
   * counter, and every record keeps the lifecycle invariant.
   */
  ghost predicate StoreValid(s: seq<Incident>, issued: set<int>, nextId: int) {
    && UniqueIds(s)
    && (forall i :: 0 <= i < |s| ==> s[i].id in issued)
    && (forall id :: id in issued ==> id < nextId)
    && (forall i :: 0 <= i < |s| ==> ResolutionConsistent(s[i]))
  }

  /** Removing a record keeps the store invariant and leaves no record with the removed id. */
  lemma RemoveAtValid(s: seq<Incident>, k: int, issued: set<int>, nextId: int)
    requires 0 <= k < |s| && StoreValid(s, issued, nextId)
    ensures StoreValid(RemoveAt(s, k), issued, nextId)
    ensures Position(RemoveAt(s, k), s[k].id) == -1
  {
    var r := RemoveAt(s, k);
    forall i | 0 <= i < |r|
      ensures r[i].id in issued && ResolutionConsistent(r[i]) && r[i].id != s[k].id
    {
      var j := if i < k then i else i + 1;
      assert r[i] == s[j];
    }
    forall i, j | 0 <= i < j < |r|
      ensures r[i].id != r[j].id
    {
      var i', j' := if i < k then i else i + 1, if j < k then j else j + 1;
      assert r[i] == s[i'] && r[j] == s[j'];
    }
  }

  /** The store after deleting `id`: unchanged when no record has it, else without its first record. */
  function Deleted(s: seq<Incident>, id: int): (r: seq<Incident>)
    ensures Position(s, id) == -1 ==> r == s
    ensures Position(s, id) != -1 ==> |r| == |s| - 1 && multiset(r) + multiset{s[Position(s, id)]} == multiset(s)
  {
    var k := Position(s, id);
    if k == -1 then s else RemoveAt(s, k)
  }

  /** Deleting keeps the store invariant, and afterwards no record has the deleted id. */
  lemma DeletedValid(s: seq<Incident>, id: int, issued: set<int>, nextId: int)
    requires StoreValid(s, issued, nextId)
    ensures StoreValid(Deleted(s, id), issued, nextId)
    ensures Position(Deleted(s, id), id) == -1
  {
    var k := Position(s, id);
    if k != -1 {
      RemoveAtValid(s, k, issued, nextId);
    }
  }

  /** The record the create handler builds from a request body. */
  function NewIncident(id: int, body: CreateBody, now: int): (r: Incident)
    ensures r.id == id && r.title == body.title && r.createdAt == now
    ensures Falsy(body.description) ==> r.description == ""
    ensures !Falsy(body.description) ==> Some(r.description) == body.description
    ensures Falsy(body.severity) ==> r.severity == "MEDIUM"
    ensures !Falsy(body.severity) ==> Some(r.severity) == body.severity
    ensures Falsy(body.status) ==> r.status == Some("OPEN")
    ensures !Falsy(body.status) ==> r.status == body.status
    ensures Falsy(body.createdBy) ==> r.createdBy == "Anonymous"
    ensures !Falsy(body.createdBy) ==> Some(r.createdBy) == body.createdBy
    ensures NoResolution(r) && ResolutionConsistent(r)
  {
    Incident(id, body.title, Or(body.description, ""), Or(body.severity, "MEDIUM"),
             Some(Or(body.status, "OPEN")), now, Or(body.createdBy, "Anonymous"), None, None, None)
  }

  /** The in-place update the status handler applies to the record it found. */
  function ApplyStatus(inc: Incident, body: StatusBody, now: int): (r: Incident)
    ensures r.(status := inc.status, resolutionComment := inc.resolutionComment,
               resolvedBy := inc.resolvedBy, resolvedAt := inc.resolvedAt) == inc
    ensures r.status == body.status
    ensures body.status != Some(Resolved) ==> NoResolution(r)
    ensures body.status == Some(Resolved) ==>
              && (Falsy(body.resolutionComment) ==> r.resolutionComment.None?)
              && (!Falsy(body.resolutionComment) ==> r.resolutionComment == body.resolutionComment)
              && (Falsy(body.resolvedBy) ==> r.resolvedBy.None?)
              && (!Falsy(body.resolvedBy) ==> r.resolvedBy == body.resolvedBy)
              && (body.resolvedAt.None? ==> r.resolvedAt == Some(now))
              && (body.resolvedAt.Some? ==> r.resolvedAt == body.resolvedAt)
    ensures ResolutionConsistent(r)
  {
    if body.status == Some(Resolved) then
      inc.(status := body.status,
           resolutionComment := if Falsy(body.resolutionComment) then None else body.resolutionComment,
           resolvedBy := if Falsy(body.resolvedBy) then None else body.resolvedBy,
           resolvedAt := Some(if body.resolvedAt.Some? then body.resolvedAt.value else now))
    else
      inc.(status := body.status, resolutionComment := None, resolvedBy := None, resolvedAt := None)
  }

  /**
   * Repeating a status update gives the same record exactly when the second run cannot pick a
   * different resolution time: the status is not RESOLVED, the body names the time, or the clock
   * reads the same.
   */
  lemma ApplyStatusRepeated(inc: Incident, body: StatusBody, t1: int, t2: int)
    ensures ApplyStatus(ApplyStatus(inc, body, t1), body, t2) == ApplyStatus(inc, body, t1)
            <==> body.status != Some(Resolved) || body.resolvedAt.Some? || t1 == t2
  {
    if body.status == Some(Resolved) && body.resolvedAt.None? && t1 != t2 {
      assert ApplyStatus(ApplyStatus(inc, body, t1), body, t2).resolvedAt == Some(t2);
    }
  }

  /** Resolving and then moving to any other status leaves no resolution field behind. */
  lemma ResolveThenReopen(inc: Incident, resolve: StatusBody, reopen: StatusBody, t1: int, t2: int)
    requires resolve.status == Some(Resolved) && reopen.status != Some(Resolved)
    ensures ApplyStatus(inc, resolve, t1).resolvedAt.Some?
    ensures NoResolution(ApplyStatus(ApplyStatus(inc, resolve, t1), reopen, t2))
  {
  }

  /** The server's state: the `incidents` array and the `nextId` counter. */
  class IncidentStore {
    var incidents: seq<Incident>
    var nextId: int
    /** Every id the store has ever handed out, including those of deleted records. */
    ghost var issued: set<int>

    ghost predicate Valid()
      reads this
    {
      StoreValid(incidents, issued, nextId)
    }

    /** Start-up: the seed records and a counter above their ids. */
    constructor (now: int)
      ensures Valid()
      ensures incidents == Seed(now) && nextId == 13
    {
      var seed := Seed(now);
      incidents := seed;
      nextId := 13;
      issued := set i | 0 <= i < |seed| :: seed[i].id;
    }

    /** The search both `find` and `findIndex` perform. */
    method FindIndex(id: int) returns (index: int)
      ensures index == Position(incidents, id)
    {
      index := 0;
      while index < |incidents|
        invariant 0 <= index <= |incidents|
        invariant forall i :: 0 <= i < index ==> incidents[i].id != id
      {
        if incidents[index].id == id {
          return;
        }
        index := index + 1;
      }
      index := -1;
    }

    /** GET /api/incidents/health: always 200 with body "OK", touching nothing. */
    method Health() returns (r: Reply<string>)
      ensures r.Ok? && r.body == "OK" && r.Code() == 200
    {
      r := Ok("OK");
    }

    /** GET /api/incidents: a sorted copy; the store keeps its order. */
    method List() returns (r: Reply<seq<Incident>>)
      ensures r.Ok?
      ensures SortedDesc(r.body, CreatedAt)
      ensures multiset(r.body) == multiset(incidents)
      ensures forall t :: WithKey(r.body, CreatedAt, t) == WithKey(incidents, CreatedAt, t)
    {
      var sorted := SortDesc(incidents, CreatedAt);
      forall t ensures WithKey(sorted, CreatedAt, t) == WithKey(incidents, CreatedAt, t) {
        SortDescStable(incidents, CreatedAt, t);
      }
      r := Ok(sorted);
    }

    /** GET /api/incidents/:id */
    method Get(id: int) returns (r: Reply<Incident>)
      ensures r.Ok? || r.NotFound?
      ensures r.NotFound? <==> forall i :: 0 <= i < |incidents| ==> incidents[i].id != id
      ensures r.Ok? ==> r.body.id == id && r.body == incidents[Position(incidents, id)]
    {
      var k := FindIndex(id);
      if k == -1 {
        r := NotFound;
      } else {
        r := Ok(incidents[k]);
      }
    }

    /** POST /api/incidents */
    method Create(body: CreateBody, now: int) returns (r: Reply<Incident>)
      requires Valid()
      modifies this
      ensures Valid()
      ensures r.Created? && r.body == NewIncident(old(nextId), body, now)
      ensures incidents == old(incidents) + [r.body]
      ensures nextId == old(nextId) + 1
      ensures r.body.id !in old(issued) && issued == old(issued) + {r.body.id}
    {
      var created := NewIncident(nextId, body, now);
      nextId := nextId + 1;
      incidents := incidents + [created];
      issued := issued + {created.id};
      r := Created(created);
    }

    /** PATCH /api/incidents/:id/status */
    method UpdateStatus(id: int, body: StatusBody, now: int) returns (r: Reply<Incident>)
      requires Valid()
      modifies this
      ensures Valid()
      ensures nextId == old(nextId) && issued == old(issued)
      ensures var k := Position(old(incidents), id);
              if k == -1 then r == NotFound && incidents == old(incidents)
              else r == Ok(ApplyStatus(old(incidents)[k], body, now))
                   && incidents == old(incidents)[k := r.body]
    {
      var k := FindIndex(id);
      if k == -1 {
        r := NotFound;
        return;
      }
      var updated := ApplyStatus(incidents[k], body, now);
      incidents := incidents[k := updated];
      r := Ok(updated);
    }

    /** DELETE /api/incidents/:id */
    method Delete(id: int) returns (r: Reply<()>)
      requires Valid()
      modifies this
      ensures Valid()
      ensures nextId == old(nextId) && issued == old(issued)
      ensures incidents == Deleted(old(incidents), id)
      ensures r == if Position(old(incidents), id) == -1 then NotFound else NoContent
    {
      var k := FindIndex(id);
      DeletedValid(incidents, id, issued, nextId);
      if k == -1 {
        r := NotFound;
      } else {
        incidents := RemoveAt(incidents, k);
        r := NoContent;
      }
    }
  }
}
