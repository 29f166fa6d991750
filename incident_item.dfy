/**
 * The incident card of the web UI: the incident as the UI receives it, the severity icon, the
 * status badge class, the text the card shows, and the guards in front of its two callbacks.
 * `window.confirm` is a parameter answering the question it is asked.
 */
module IncidentItemView {
  import opened Wrappers
  import opened Js
  import opened RelativeTime

  /** An incident as the UI receives it; an absent or null field is None. */
  datatype IncidentJson = IncidentJson(
    id: int,
    title: JsString,
    description: JsString,
    severity: JsString,
    status: JsString,
    createdAt: int,
    createdBy: JsString)

  const CriticalIcon := "\U{1F534}"
  const HighIcon := "\U{1F7E0}"
  const MediumIcon := "\U{1F7E1}"
  const LowIcon := "\U{1F7E2}"
  const UnknownIcon := "\U{26AA}"

  /** The four severity names the backend defines. */
  predicate KnownSeverity(severity: JsString) {
    severity.Some? && severity.value in {"CRITICAL", "HIGH", "MEDIUM", "LOW"}
  }

  /** `getSeverityIcon`: one icon per known severity and a neutral one for anything else. */
  function SeverityIcon(severity: JsString): (r: string)
    ensures KnownSeverity(severity) <==> r != UnknownIcon
    ensures r in {CriticalIcon, HighIcon, MediumIcon, LowIcon, UnknownIcon}
  {
    if severity == Some("CRITICAL") then CriticalIcon
    else if severity == Some("HIGH") then HighIcon
    else if severity == Some("MEDIUM") then MediumIcon
    else if severity == Some("LOW") then LowIcon
    else UnknownIcon
  }

  /** Known severities get pairwise distinct icons. */
  lemma SeverityIconInjective(a: JsString, b: JsString)
    requires KnownSeverity(a) && KnownSeverity(b)
    ensures SeverityIcon(a) == SeverityIcon(b) ==> a == b
  {
    assert CriticalIcon[0] != HighIcon[0] && CriticalIcon[0] != MediumIcon[0] && CriticalIcon[0] != LowIcon[0];
    assert HighIcon[0] != MediumIcon[0] && HighIcon[0] != LowIcon[0] && MediumIcon[0] != LowIcon[0];
  }

  /** The three status names the backend defines. */
  predicate KnownStatus(status: JsString) {
    status.Some? && status.value in {"OPEN", "INVESTIGATING", "RESOLVED"}
  }

  /** `getStatusBadgeClass`: one class per known status and the empty class for anything else. */
  function StatusBadgeClass(status: JsString): (r: string)
    ensures KnownStatus(status) <==> r != ""
    ensures r in {"status-open", "status-investigating", "status-resolved", ""}
  {
    if status == Some("OPEN") then "status-open"
    else if status == Some("INVESTIGATING") then "status-investigating"
    else if status == Some("RESOLVED") then "status-resolved"
    else ""
  }

  /** Known statuses get pairwise distinct classes. */
  lemma StatusBadgeClassInjective(a: JsString, b: JsString)
    requires KnownStatus(a) && KnownStatus(b)
    ensures StatusBadgeClass(a) == StatusBadgeClass(b) ==> a == b
  {
    assert "status-open"[7] != "status-investigating"[7] && "status-open"[7] != "status-resolved"[7];
    assert "status-investigating"[7] != "status-resolved"[7];
  }

  /** What the card shows. */
  datatype Card = Card(icon: string, severityLabel: JsString, badgeClass: string, title: JsString,
                       description: Option<string>, author: string, time: string)

  /**
   * The card for `incident` at time `now`: one of the five icons, neutral exactly for an unknown
   * severity; one of the badge classes, empty exactly for an unknown status; a non-empty
   * description block only for a truthy description; a never-empty author with its
   * "Anonymous" fallback; and the creation time, relative under a week old, the locale date after.
   */
  function Render(incident: IncidentJson, now: int, toLocaleDateString: int -> string): (c: Card)
    ensures c.icon == SeverityIcon(incident.severity) && c.badgeClass == StatusBadgeClass(incident.status)
    ensures c.icon in {CriticalIcon, HighIcon, MediumIcon, LowIcon, UnknownIcon}
    ensures c.icon == UnknownIcon <==> !KnownSeverity(incident.severity)
    ensures c.badgeClass in {"status-open", "status-investigating", "status-resolved", ""}
    ensures c.badgeClass == "" <==> !KnownStatus(incident.status)
    ensures c.severityLabel == incident.severity && c.title == incident.title
    ensures c.description.Some? <==> !Falsy(incident.description)
    ensures c.description.Some? ==> incident.description == c.description && c.description.value != ""
    ensures Falsy(incident.createdBy) ==> c.author == "Anonymous"
    ensures !Falsy(incident.createdBy) ==> c.author == incident.createdBy.value
    ensures c.author != ""
    ensures c.time == FormatDate(incident.createdAt, now, toLocaleDateString)
    ensures now - incident.createdAt < WeekMs ==> RelativeText(c.time)
    ensures WeekMs <= now - incident.createdAt ==> c.time == toLocaleDateString(incident.createdAt)
  {
    Card(SeverityIcon(incident.severity), incident.severity, StatusBadgeClass(incident.status),
         incident.title, if Falsy(incident.description) then None else incident.description,
         Or(incident.createdBy, "Anonymous"), FormatDate(incident.createdAt, now, toLocaleDateString))
  }

  /** A call of `onStatusChange(id, status)`. */
  datatype StatusChangeCall = StatusChangeCall(id: int, status: string)

  /** `handleStatusChange` for the option `selected`: a call only when it differs from the current status. */
  function HandleStatusChange(incident: IncidentJson, selected: string): (r: Option<StatusChangeCall>)
    ensures r.None? <==> incident.status == Some(selected)
    ensures r.Some? ==> r.value.id == incident.id && r.value.status == selected
  {
    if incident.status != Some(selected) then Some(StatusChangeCall(incident.id, selected)) else None
  }

  const DeleteQuestion := "Are you sure you want to delete this incident?"

  /** `handleDelete`: `onDelete(incident.id)` only when the user confirms. */
  function HandleDelete(incident: IncidentJson, confirm: string -> bool): (r: Option<int>)
    ensures r.Some? <==> confirm(DeleteQuestion)
    ensures r.Some? ==> r.value == incident.id
  {
    if confirm(DeleteQuestion) then Some(incident.id) else None
  }
}
