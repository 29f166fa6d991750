/**
 * The JPA entity of the Spring backend: a mutable incident object with two constructors and one
 * setter per field, and the enumerations it uses. Timestamps are milliseconds; the constructors'
 * clock reading is a parameter.
 */
module IncidentEntity {
  import opened Wrappers

  datatype Severity = LOW | MEDIUM | HIGH | CRITICAL

  datatype Status = OPEN | INVESTIGATING | RESOLVED

  /** `Status.name()`. */
  function StatusName(s: Status): string {
    match s
    case OPEN => "OPEN"
    case INVESTIGATING => "INVESTIGATING"
    case RESOLVED => "RESOLVED"
  }

  /**
   * `Status.valueOf(name)` for a non-null name: the constant spelled exactly `name`; None where
   * Java throws IllegalArgumentException.
   */
  function StatusValueOf(name: string): (r: Option<Status>)
    ensures r.Some? ==> StatusName(r.value) == name
    ensures (exists s :: StatusName(s) == name) ==> r.Some?
  {
    if name == "OPEN" then Some(OPEN)
    else if name == "INVESTIGATING" then Some(INVESTIGATING)
    else if name == "RESOLVED" then Some(RESOLVED)
    else None
  }

  /** Every status survives a round trip through its name. */
  lemma StatusNameRoundTrip(s: Status)
    ensures StatusValueOf(StatusName(s)) == Some(s)
  {
  }

  /** The field values of an incident object; a null field is None. */
  datatype IncidentData = IncidentData(
    id: Option<int>,
    title: Option<string>,
    description: Option<string>,
    severity: Option<Severity>,
    status: Option<Status>,
    createdAt: int,
    createdBy: Option<string>,
    resolutionComment: Option<string>,
    resolvedBy: Option<string>,
    resolvedAt: Option<int>)

  /** All three resolution fields are null. */
  predicate ResolutionCleared(d: IncidentData) {
    d.resolutionComment.None? && d.resolvedBy.None? && d.resolvedAt.None?
  }

  /** The lifecycle invariant: an incident that is not RESOLVED carries no resolution field. */
  predicate ResolutionConsistent(d: IncidentData) {
    d.status != Some(RESOLVED) ==> ResolutionCleared(d)
  }

  class Incident {
    var id: Option<int>
    var title: Option<string>
    var description: Option<string>
    var severity: Option<Severity>
    var status: Option<Status>
    var createdAt: int
    var createdBy: Option<string>
    var resolutionComment: Option<string>
    var resolvedBy: Option<string>
    var resolvedAt: Option<int>

    /** The object's current field values. */
    function Data(): IncidentData
      reads this
    {
      IncidentData(id, title, description, severity, status, createdAt, createdBy,
                   resolutionComment, resolvedBy, resolvedAt)
    }

    /** `new Incident()`: an OPEN, MEDIUM incident stamped now, every other field null. */
    constructor (now: int)
      ensures status == Some(OPEN) && severity == Some(MEDIUM) && createdAt == now
      ensures id.None? && title.None? && description.None? && createdBy.None?
      ensures ResolutionCleared(Data())
    {
      createdAt := now;
      status := Some(OPEN);
      severity := Some(MEDIUM);
      id, title, description, createdBy := None, None, None, None;
      resolutionComment, resolvedBy, resolvedAt := None, None, None;
    }

    /**
     * `new Incident(title, description, severity, createdBy)`: the given fields, a null severity
     * replaced by MEDIUM, status OPEN, stamped now; no id and no resolution fields.
     */
    constructor Of(title: Option<string>, description: Option<string>, severity: Option<Severity>,
                   createdBy: Option<string>, now: int)
      ensures this.title == title && this.description == description && this.createdBy == createdBy
      ensures severity.Some? ==> this.severity == severity
      ensures severity.None? ==> this.severity == Some(MEDIUM)
      ensures status == Some(OPEN) && createdAt == now && id.None?
      ensures ResolutionCleared(Data())
    {
      this.title := title;
      this.description := description;
      this.severity := if severity.Some? then severity else Some(MEDIUM);
      this.createdBy := createdBy;
      this.createdAt := now;
      this.status := Some(OPEN);
      id := None;
      resolutionComment, resolvedBy, resolvedAt := None, None, None;
    }

    /** An object holding a row read back from the table, as the repository's finders return it. */
    constructor Load(d: IncidentData)
      ensures Data() == d
    {
      id, title, description, severity, status := d.id, d.title, d.description, d.severity, d.status;
      createdAt, createdBy := d.createdAt, d.createdBy;
      resolutionComment, resolvedBy, resolvedAt := d.resolutionComment, d.resolvedBy, d.resolvedAt;
    }

    method SetId(v: Option<int>)
      modifies this
      ensures Data() == old(Data()).(id := v)
    {
      id := v;
    }

    method SetTitle(v: Option<string>)
      modifies this
      ensures Data() == old(Data()).(title := v)
    {
      title := v;
    }

    method SetDescription(v: Option<string>)
      modifies this
      ensures Data() == old(Data()).(description := v)
    {
      description := v;
    }

    method SetSeverity(v: Option<Severity>)
      modifies this
      ensures Data() == old(Data()).(severity := v)
    {
      severity := v;
    }

    method SetStatus(v: Option<Status>)
      modifies this
      ensures Data() == old(Data()).(status := v)
    {
      status := v;
    }

    method SetCreatedAt(v: int)
      modifies this
      ensures Data() == old(Data()).(createdAt := v)
    {
      createdAt := v;
    }

    method SetCreatedBy(v: Option<string>)
      modifies this
      ensures Data() == old(Data()).(createdBy := v)
    {
      createdBy := v;
    }

    method SetResolutionComment(v: Option<string>)
      modifies this
      ensures Data() == old(Data()).(resolutionComment := v)
    {
      resolutionComment := v;
    }

    method SetResolvedBy(v: Option<string>)
      modifies this
      ensures Data() == old(Data()).(resolvedBy := v)
    {
      resolvedBy := v;
    }

    method SetResolvedAt(v: Option<int>)
      modifies this
      ensures Data() == old(Data()).(resolvedAt := v)
    {
      resolvedAt := v;
    }
  }
}
