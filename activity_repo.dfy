/**
  * The activity repository (`internal/components/activity/repo.go`), which owns rows by
  * user id: the filtered, paginated listing, the partial update and the delete.
  *
  * The database is not modelled: each operation states the statements it sends, and the
  * database's replies to them are parameters.
  */
module ActivityRepo {
  import opened Common
  import Uuid
  import opened ActivityModels
  import opened Sql
  import opened RepoStatements

  lemma WhereStep(bs: seq<Binding>, b: Binding)
    requires |bs| >= 1
    ensures WhereClause(bs + [b]) == WhereClause(bs) + " AND " + Condition(b, 1 + |bs|)
  {
    var cs := Conditions(bs, 1);
    var c := Condition(b, 1 + |bs|);
    ConditionsSnoc(bs, b, 1);
    JoinSnoc(cs, c, " AND ");
    var j := Join(cs, " AND ");
    Regroup("WHERE ", j, " AND ");
    Regroup("WHERE ", j + " AND ", c);
  }

  /** The text a date filter appends is `AND` followed by its condition. */
  lemma FilterText(op: string, p: string)
    requires op == ">=" || op == "<="
    ensures " AND date " + op + " " + p == " AND " + ("date" + " " + op + " " + p)
  {
  }

  /**
    * A date-filter step of the builder: appending ` AND date <op> $k` extends the clause
    * of `bs` by the condition of one more binding, numbered next.
    */
  lemma DateStep(bs: seq<Binding>, op: string, t: Time, whereClause: string)
    requires op == ">=" || op == "<="
    requires |bs| >= 1 && whereClause == WhereClause(bs)
    ensures whereClause + " AND date " + op + " " + Placeholder(1 + |bs|)
      == WhereClause(bs + [Binding("date", op, TimeArg(t))])
  {
    var b := Binding("date", op, TimeArg(t));
    var p := Placeholder(1 + |bs|);
    WhereStep(bs, b);
    FilterText(op, p);
    Regroup(whereClause, " AND date " + op + " ", p);
    Regroup(whereClause, " AND ", Condition(b, 1 + |bs|));
  }

  /** The builder's starting point: the owner condition alone. */
  lemma OwnerClause(userID: Uuid.UUID)
    ensures var bs := [Binding("user_id", "=", UuidArg(userID))];
      WhereClause(bs) == "WHERE user_id = $1" && Values(bs) == [UuidArg(userID)]
  {
    var bs := [Binding("user_id", "=", UuidArg(userID))];
    assert Placeholder(1) == "$1";
    assert Conditions(bs, 1) == [Condition(bs[0], 1)];
    assert Condition(bs[0], 1) == "user_id = $1";
  }

  /**
    * The WHERE-clause builder of `List`: it starts at `user_id = $1` with the user id as
    * the one argument, and each date filter adds its condition and its argument, keeping
    * `argIndex` one past the last argument.
    */
  method BuildWhere(userID: Uuid.UUID, query: GetActivitiesQuery)
    returns (whereClause: string, args: seq<Arg>, argIndex: int)
    ensures argIndex == |args| + 1 == |Filters(userID, query)| + 1
    ensures whereClause == WhereClause(Filters(userID, query))
    ensures args == Values(Filters(userID, query))
  {
    whereClause := "WHERE user_id = $1";
    args := [UuidArg(userID)];
    argIndex := 2;
    ghost var bs := [Binding("user_id", "=", UuidArg(userID))];
    OwnerClause(userID);

    if query.startDate.Some? {
      var b := Binding("date", ">=", TimeArg(query.startDate.value));
      DateStep(bs, ">=", query.startDate.value, whereClause);
      ValuesSnoc(bs, b);
      whereClause := whereClause + " AND date >= " + Placeholder(argIndex);
      args := args + [TimeArg(query.startDate.value)];
      argIndex := argIndex + 1;
      bs := bs + [b];
    }
    assert bs == [Binding("user_id", "=", UuidArg(userID))] + StartFilter(query);
    assert argIndex == |args| + 1 == |bs| + 1;
    assert whereClause == WhereClause(bs) && args == Values(bs);

    if query.endDate.Some? {
      var b := Binding("date", "<=", TimeArg(query.endDate.value));
      DateStep(bs, "<=", query.endDate.value, whereClause);
      ValuesSnoc(bs, b);
      whereClause := whereClause + " AND date <= " + Placeholder(argIndex);
      args := args + [TimeArg(query.endDate.value)];
      argIndex := argIndex + 1;
      bs := bs + [b];
    }
    assert bs == Filters(userID, query);
  }

  /** The page query ends by binding `LIMIT` and `OFFSET` to the placeholders after the filters'. */
  lemma ListSqlEndsWithPage(whereClause: string, argIndex: nat)
    ensures var s, tail := ListSql(whereClause, argIndex),
        Limit + Placeholder(argIndex) + OffsetWord + Placeholder(argIndex + 1);
      |tail| <= |s| && s[|s| - |tail|..] == tail
  {
    var head := ListHead(whereClause);
    var tail := Limit + Placeholder(argIndex) + OffsetWord + Placeholder(argIndex + 1);
    assert ListSql(whereClause, argIndex) == head + tail;
    assert (head + tail)[|head + tail| - |tail|..] == tail;
  }

  /** The page query, given the outputs of `BuildWhere` for the filters `bs`. */
  lemma PageStatementBuilt(
    bs: seq<Binding>, query: GetActivitiesQuery, whereClause: string, args: seq<Arg>, argIndex: nat)
    requires whereClause == WhereClause(bs) && args == Values(bs) && argIndex == |bs| + 1
    ensures PageStatement(bs, query)
      == Statement(ListSql(whereClause, argIndex), args + [IntArg(query.limit), IntArg(Offset(query.page, query.limit))])
  {
  }

  /**
    * `List`. `countReply` is the database's answer to the count, `rowsReply` its answer to
    * the page query, one scan result per row; `sent` lists the statements sent, in order.
    */
  method List(
    userID: Uuid.UUID, query: GetActivitiesQuery, countReply: Result<int, string>,
    rowsReply: Result<seq<Result<Activity<Uuid.UUID>, string>>, string>)
    returns (sent: seq<Statement>, resp: Result<GetActivitiesResponse<Uuid.UUID>, Error>)
    ensures sent == if countReply.Ok? then [CountStatement(userID, query), ListStatement(userID, query)]
      else [CountStatement(userID, query)]
    ensures countReply.Err? ==> resp == Err(DbError(countReply.error))
    ensures countReply.Ok? && rowsReply.Err? ==> resp == Err(DbError(rowsReply.error))
    ensures resp.Ok? <==>
      countReply.Ok? && rowsReply.Ok? && forall i | 0 <= i < |rowsReply.value| :: rowsReply.value[i].Ok?
    ensures resp.Ok? ==>
      && resp.value.total == countReply.value
      && resp.value.page == query.page && resp.value.limit == query.limit
      && |resp.value.activities| == |rowsReply.value|
      && forall i | 0 <= i < |rowsReply.value| :: resp.value.activities[i] == rowsReply.value[i].value
  {
    var offset := Offset(query.page, query.limit);
    var whereClause, args, argIndex := BuildWhere(userID, query);

    sent := [Statement("SELECT COUNT(*) FROM activities " + whereClause, args)];
    if countReply.Err? {
      return sent, Err(DbError(countReply.error));
    }

    var stmt := ListSql(whereClause, argIndex);
    PageStatementBuilt(Filters(userID, query), query, whereClause, args, argIndex);
    args := args + [IntArg(query.limit), IntArg(offset)];
    sent := sent + [Statement(stmt, args)];
    if rowsReply.Err? {
      return sent, Err(DbError(rowsReply.error));
    }

    var activities := ScanRows(rowsReply.value);
    if activities.Err? {
      return sent, Err(activities.error);
    }
    resp := Ok(GetActivitiesResponse(activities.value, countReply.value, query.page, query.limit));
  }

  /**
    * Placeholder `$k` of the page query is bound to its k-th argument: the filters take
    * `$1` on, the page size the next placeholder and the offset the last one, with no
    * argument left over. The count binds the same filter arguments.
    */
  lemma ListBindsInOrder(userID: Uuid.UUID, query: GetActivitiesQuery)
    ensures var bs, args := Filters(userID, query), ListArgs(userID, query);
      && |args| == |bs| + 2
      && Binds(bs, 1, args)
      && args[|bs|] == IntArg(query.limit)
      && args[|bs| + 1] == IntArg(Offset(query.page, query.limit))
      && CountStatement(userID, query).args == args[..|bs|]
  {
    var bs := Filters(userID, query);
    var page := [IntArg(query.limit), IntArg(Offset(query.page, query.limit))];
    ValuesBind([], bs, page);
    assert [] + Values(bs) + page == ListArgs(userID, query);
  }

  /** The first condition of a WHERE clause on `user_id` reads `user_id = $1`. */
  lemma OwnerCondition(bs: seq<Binding>)
    requires |bs| >= 1 && bs[0].column == "user_id" && bs[0].op == "="
    ensures Conditions(bs, 1)[0] == "user_id = $1"
  {
    var c := Conditions(bs, 1)[0];
    assert Placeholder(1) == "$1";
    assert c == "user_id" + " " + "=" + " " + "$1";
  }

  /** Prefixing `WHERE ` keeps a leading `user_id = $1` in front. */
  lemma WherePrefix(j: string, c: string)
    requires |c| <= |j| && j[..|c|] == c && c == "user_id = $1"
    ensures var w := "WHERE " + j;
      |"WHERE user_id = $1"| <= |w| && w[..|"WHERE user_id = $1"|] == "WHERE user_id = $1"
  {
    var w := "WHERE " + j;
    assert w[..|"WHERE " + c|] == "WHERE " + j[..|c|];
  }

  /** Every listing is restricted to the caller's rows: the WHERE clause opens with `user_id = $1`. */
  lemma WhereStartsWithOwner(userID: Uuid.UUID, query: GetActivitiesQuery)
    ensures var w := WhereClause(Filters(userID, query));
      |"WHERE user_id = $1"| <= |w| && w[..|"WHERE user_id = $1"|] == "WHERE user_id = $1"
      && Values(Filters(userID, query))[0] == UuidArg(userID)
  {
    var bs := Filters(userID, query);
    assert bs[0] == Binding("user_id", "=", UuidArg(userID));
    var cs := Conditions(bs, 1);
    OwnerCondition(bs);
    JoinStartsWith(cs, " AND ");
    WherePrefix(Join(cs, " AND "), cs[0]);
  }

  /**
    * `Update`: with no field set it sends the read-back query instead of an UPDATE;
    * `reply` is the database's answer to whichever statement was sent.
    */
  method Update(userID: Uuid.UUID, id: int, req: UpdateActivityIn, reply: Result<Activity<Uuid.UUID>, string>)
    returns (sent: Statement, r: Result<Activity<Uuid.UUID>, Error>)
    ensures UpdateFields(req) == [] ==> sent == GetByIDStatement(userID, id)
    ensures UpdateFields(req) != [] ==> sent == UpdateStatement(userID, id, req)
    ensures r == FromRow(reply)
  {
    var setParts, args, argIndex := BuildSetParts(id, UuidArg(userID), req);
    if |setParts| == 0 {
      return GetByIDStatement(userID, id), FromRow(reply);
    }
    setParts := setParts + ["updated_at = NOW()"];
    var stmt := UpdateSql("user_id", Join(setParts, ", "));
    return Statement(stmt, args), FromRow(reply);
  }

  /** The UPDATE binds `$1` to the id, `$2` to the owner and `$3` on to the fields set. */
  lemma UpdateBindsInOrder(userID: Uuid.UUID, id: int, req: UpdateActivityIn)
    ensures var st := UpdateStatement(userID, id, req);
      && |st.args| == 2 + |UpdateFields(req)|
      && st.args[0] == IntArg(id) && st.args[1] == UuidArg(userID)
      && Binds(UpdateFields(req), 3, st.args)
  {
    UpdateBindsFields(id, UuidArg(userID), req);
  }

  /** `Delete`: the statement sent and the outcome for the database's reply. */
  function Delete(userID: Uuid.UUID, id: int, rowsAffected: Result<int, string>)
    : (r: (Statement, Option<Error>))
    ensures r.0.args == [IntArg(id), UuidArg(userID)]
    ensures r.1 == None <==> rowsAffected.Ok? && rowsAffected.value != 0
    ensures rowsAffected == Ok(0) ==> r.1 == Some(ActivityNotFound)
    ensures rowsAffected.Err? ==> r.1 == Some(DbError(rowsAffected.error))
  {
    (DeleteStatement(userID, id), DeleteOutcome(rowsAffected))
  }
}
