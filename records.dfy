/** The record both views read: one row of the `rip_and_runs` table. */
module Records {

  import opened Wrappers

  /** An incident as the backend returns it. `(incidentNumber, unitId)` is its natural key;
      `content` is the serialized JSON document holding the timeline. */
  datatype Incident = Incident(
    incidentNumber: int,
    unitId: string,
    incidentDate: string,
    location: Option<string>,
    incidentType: Option<string>,
    content: string)
}
