/**
  * The activity service (`internal/components/activity/service.go`), which owns rows by
  * user name and has no date filter: create, bulk create, the paginated listing, read,
  * partial update and delete.
  *
  * As for the repository, the database is not modelled: each operation states the
  * statements it sends, and the database's replies are parameters.
  */
module ActivityService {
  import opened Common
  import opened ActivityModels
  import opened Sql
  import Strconv

  const InsertSql :=
    "\n\tINSERT INTO activities (\n\t\tuser_name, activity_name, duration, date)\n\tVALUES (\n\t\t$1, $2, $3, $4\n\t)\n\tRETURNING *"
  const CountSql := "SELECT COUNT(*) FROM activities WHERE user_name = $1"
  const PageSql :=
    "\n\tSELECT id, user_name, activity_name, duration, date, created_at, updated_at\n\tFROM activities \n\tWHERE user_name = $1\n\tORDER BY created_at DESC\n\tLIMIT $2 OFFSET $3"

  /** The `CreateActivityOut` that `new` allocates: every field zero. */
  const ZeroActivity: Activity<string> := Activity(0, "", "", 0, ZeroTime, ZeroTime, ZeroTime)

  /** The INSERT of one activity: `$1` the owner, `$2`..`$4` the request's fields. */
  function InsertStatement(userName: string, req: CreateActivityIn): (st: Statement)
    ensures |st.args| == 4 && st.args[0] == TextArg(userName)
    ensures st.args[1..] == [TextArg(req.activityName), IntArg(req.duration), TimeArg(req.date)]
  {
    Statement(InsertSql, [TextArg(userName), TextArg(req.activityName), IntArg(req.duration), TimeArg(req.date)])
  }

  /**
    * `CreateActivity`, for the database's `reply` to the INSERT. The record is returned
    * even when the statement failed, as it was allocated: zero.
    */
  function CreateActivity(userName: string, req: CreateActivityIn, reply: Result<Activity<string>, string>)
    : (r: (Activity<string>, Option<Error>))
    ensures r.1.None? <==> reply.Ok?
    ensures reply.Ok? ==> r.0 == reply.value
    ensures reply.Err? ==> r.0 == ZeroActivity && r.1 == Some(DbError(reply.error))
  {
    match reply
    case Ok(a) => (a, None)
    case Err(e) => (ZeroActivity, Some(DbError(e)))
  }

  /**
    * `BulkCreateActivities`: one `CreateActivity` per input, in order. `reply(i)` is the
    * database's answer to the i-th INSERT; `sent` lists the INSERTs sent. The loop stops
    * at the first failure, and `Count` is set only after the loop.
    */
  method BulkCreateActivities(
    userName: string, req: BulkCreateActivityIn, reply: nat -> Result<Activity<string>, string>)
    returns (result: BulkCreateActivityOut<string>, err: Option<Error>, sent: seq<Statement>)
    ensures |sent| <= |req.activities|
    ensures forall i | 0 <= i < |sent| :: sent[i] == InsertStatement(userName, req.activities[i])
    ensures err.None? <==> forall i | 0 <= i < |req.activities| :: reply(i).Ok?
    ensures err.None? ==>
      && |sent| == |result.activities| == result.count == |req.activities|
      && forall i | 0 <= i < |req.activities| :: result.activities[i] == reply(i).value
    ensures err.Some? ==>
      && 1 <= |sent| && result.count == 0
      && var k := |sent| - 1;
        && reply(k).Err? && err == Some(DbError(reply(k).error))
        && |result.activities| == k
        && forall i | 0 <= i < k :: reply(i).Ok? && result.activities[i] == reply(i).value
  {
    result := BulkCreateActivityOut([], 0);
    sent := [];
    var n := 0;
    while n < |req.activities|
      invariant 0 <= n <= |req.activities|
      invariant |sent| == n && forall i | 0 <= i < n :: sent[i] == InsertStatement(userName, req.activities[i])
      invariant result.count == 0 && |result.activities| == n
      invariant forall i | 0 <= i < n :: reply(i).Ok? && result.activities[i] == reply(i).value
    {
      sent := sent + [InsertStatement(userName, req.activities[n])];
      var created := CreateActivity(userName, req.activities[n], reply(n));
      if created.1.Some? {
        return result, created.1, sent;
      }
      result := result.(activities := result.activities + [created.0]);
      n := n + 1;
    }
    result := result.(count := |result.activities|);
    err := None;
  }

  /** The count `GetActivities` sends first. */
  function CountStatement(userName: string): Statement {
    Statement(CountSql, [TextArg(userName)])
  }

  /** The page query `GetActivities` sends next: the owner, the page size and the offset. */
  function PageStatement(userName: string, query: GetActivitiesQuery): Statement {
    Statement(PageSql, [TextArg(userName), IntArg(query.limit), IntArg(Offset(query.page, query.limit))])
  }

  /**
    * `GetActivities`. `countReply` is the database's answer to the count, `rowsReply` its
    * answer to the page query, one scan result per row.
    */
  method GetActivities(
    userName: string, query: GetActivitiesQuery, countReply: Result<int, string>,
    rowsReply: Result<seq<Result<Activity<string>, string>>, string>)
    returns (sent: seq<Statement>, resp: Result<GetActivitiesResponse<string>, Error>)
    ensures sent == if countReply.Ok? then [CountStatement(userName), PageStatement(userName, query)]
      else [CountStatement(userName)]
    ensures countReply.Err? ==> resp == Err(DbError(countReply.error))
    ensures countReply.Ok? && rowsReply.Err? ==> resp == Err(DbError(rowsReply.error))
    ensures resp.Ok? <==>
      countReply.Ok? && rowsReply.Ok? && forall i | 0 <= i < |rowsReply.value| :: rowsReply.value[i].Ok?
    ensures resp.Ok? ==>
      && resp.value.total == countReply.value
      && resp.value.page == query.page && resp.value.limit == query.limit
      && |resp.value.activities| == |rowsReply.value|
      && forall i | 0 <= i < |rowsReply.value| :: resp.value.activities[i] == rowsReply.value[i].value
  {
    var offset := Offset(query.page, query.limit);

    sent := [Statement(CountSql, [TextArg(userName)])];
    if countReply.Err? {
      return sent, Err(DbError(countReply.error));
    }

    sent := sent + [Statement(PageSql, [TextArg(userName), IntArg(query.limit), IntArg(offset)])];
    if rowsReply.Err? {
      return sent, Err(DbError(rowsReply.error));
    }

    var activities := ScanRows(rowsReply.value);
    if activities.Err? {
      return sent, Err(activities.error);
    }
    resp := Ok(GetActivitiesResponse(activities.value, countReply.value, query.page, query.limit));
  }

  /**
    * For a page number and page size as the router produces them, the page query skips
    * exactly the rows of the earlier pages.
    */
  lemma PageSkipsEarlierPages(userName: string, query: GetActivitiesQuery)
    requires query.page >= 1 && query.limit >= 1
    ensures var off := PageStatement(userName, query).args[2].n;
      off >= 0 && off % query.limit == 0 && off / query.limit == query.page - 1
  {
  }

  /**
    * While `(page - 1) * limit` fits in a 64-bit `int`, the offset the page query binds is
    * the one Go computes; beyond that they part, as `Sql.OffsetOverflow` shows.
    */
  lemma PageOffsetAsGo(userName: string, query: GetActivitiesQuery)
    requires 1 <= query.page <= Strconv.MaxInt64 && 1 <= query.limit <= Strconv.MaxInt64
    requires (query.page - 1) * query.limit <= Strconv.MaxInt64
    ensures PageStatement(userName, query).args[2].n == Offset64(query.page, query.limit)
  {
  }

  /** The statement that reads one activity of the user. */
  function GetByIDStatement(userName: string, id: int): Statement {
    Statement(SelectByIDSql("user_name"), [IntArg(id), TextArg(userName)])
  }

  /** `GetActivityByID`: the row, or the driver's error (no rows among them). */
  function GetActivityByID(userName: string, id: int, reply: Result<Activity<string>, string>)
    : (r: (Statement, Result<Activity<string>, Error>))
    ensures r.0.args == [IntArg(id), TextArg(userName)]
    ensures r.1.Ok? <==> reply.Ok?
    ensures r.1.Ok? ==> r.1.value == reply.value
    ensures r.1.Err? ==> r.1.error == DbError(reply.error)
  {
    (GetByIDStatement(userName, id), FromRow(reply))
  }

  /** The UPDATE for a request with at least one field. */
  function UpdateStatement(userName: string, id: int, req: UpdateActivityIn): Statement {
    Statement(UpdateSql("user_name", SetList(Conditions(UpdateFields(req), 3))),
      [IntArg(id), TextArg(userName)] + Values(UpdateFields(req)))
  }

  /**
    * `UpdateActivity`: with no field set it reads the activity back through
    * `GetActivityByID` instead of updating; `reply` is the database's answer to whichever
    * statement was sent.
    */
  method UpdateActivity(userName: string, id: int, req: UpdateActivityIn, reply: Result<Activity<string>, string>)
    returns (sent: Statement, r: Result<Activity<string>, Error>)
    ensures UpdateFields(req) == [] ==> (sent, r) == GetActivityByID(userName, id, reply)
    ensures UpdateFields(req) != [] ==> sent == UpdateStatement(userName, id, req) && r == FromRow(reply)
  {
    var setParts, args, argIndex := BuildSetParts(id, TextArg(userName), req);
    if |setParts| == 0 {
      var read := GetActivityByID(userName, id, reply);
      return read.0, read.1;
    }
    setParts := setParts + ["updated_at = NOW()"];
    var stmt := UpdateSql("user_name", Join(setParts, ", "));
    return Statement(stmt, args), FromRow(reply);
  }

  /** The UPDATE binds `$1` to the id, `$2` to the user name and `$3` on to the fields set. */
  lemma UpdateBindsInOrder(userName: string, id: int, req: UpdateActivityIn)
    ensures var st := UpdateStatement(userName, id, req);
      && |st.args| == 2 + |UpdateFields(req)|
      && st.args[0] == IntArg(id) && st.args[1] == TextArg(userName)
      && Binds(UpdateFields(req), 3, st.args)
  {
    UpdateBindsFields(id, TextArg(userName), req);
  }

  /** `DeleteActivity`: the statement sent and the outcome for the database's reply. */
  function DeleteActivity(userName: string, id: int, rowsAffected: Result<int, string>)
    : (r: (Statement, Option<Error>))
    ensures r.0.args == [IntArg(id), TextArg(userName)]
    ensures r.1 == None <==> rowsAffected.Ok? && rowsAffected.value != 0
    ensures rowsAffected == Ok(0) ==> r.1 == Some(ActivityNotFound)
    ensures rowsAffected.Err? ==> r.1 == Some(DbError(rowsAffected.error))
  {
    (Statement(DeleteSql("user_name"), [IntArg(id), TextArg(userName)]), DeleteOutcome(rowsAffected))
  }
}
