/**
  * The activity component's records (`internal/components/activity/models.go`) and the
  * errors its repository and service report.
  *
  * The repository and the router identify the owner by user id and filter by date; the
  * service identifies the owner by user name and has no date filter. An activity is
  * therefore generic in its owner column.
  */
module ActivityModels {
  import opened Common

  /** A `time.Time`, used only as an opaque instant: compared, stored and formatted. */
  datatype Time = Time(instant: int)

  /** The zero `time.Time`. */
  const ZeroTime: Time := Time(0)

  datatype CreateActivityIn = CreateActivityIn(activityName: string, duration: int, date: Time)

  /** `CreateActivityOut`: one row of the `activities` table. */
  datatype Activity<Owner> = Activity(
    id: int,
    owner: Owner,
    activityName: string,
    duration: int,
    date: Time,
    createdAt: Time,
    updatedAt: Time)

  datatype BulkCreateActivityIn = BulkCreateActivityIn(activities: seq<CreateActivityIn>)

  datatype BulkCreateActivityOut<Owner> = BulkCreateActivityOut(activities: seq<Activity<Owner>>, count: int)

  /** `GetActivitiesQuery`; the date filters are `nil` when absent. */
  datatype GetActivitiesQuery = GetActivitiesQuery(
    page: int,
    limit: int,
    startDate: Option<Time>,
    endDate: Option<Time>)

  datatype GetActivitiesResponse<Owner> = GetActivitiesResponse(
    activities: seq<Activity<Owner>>,
    total: int,
    page: int,
    limit: int)

  /** `UpdateActivityIn`: a `nil` pointer is `None`, a field left unchanged. */
  datatype UpdateActivityIn = UpdateActivityIn(
    activityName: Option<string>,
    duration: Option<int>,
    date: Option<Time>)

  /** A database error, passed on as it came, or the "activity not found" error. */
  datatype Error = DbError(message: string) | ActivityNotFound
}
