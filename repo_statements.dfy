/**
  * The statements the activity repository (`internal/components/activity/repo.go`)
  * sends: their text, with `$n` placeholders, and their arguments.
  */
module RepoStatements {
  import Uuid
  import opened ActivityModels
  import opened Sql

  function StartFilter(query: GetActivitiesQuery): seq<Binding> {
    if query.startDate.Some? then [Binding("date", ">=", TimeArg(query.startDate.value))] else []
  }

  function EndFilter(query: GetActivitiesQuery): seq<Binding> {
    if query.endDate.Some? then [Binding("date", "<=", TimeArg(query.endDate.value))] else []
  }

  /**
    * The conditions of `List`'s WHERE clause, in order: the owner, then the start date if
    * given, then the end date if given.
    */
  function Filters(userID: Uuid.UUID, query: GetActivitiesQuery): seq<Binding> {
    [Binding("user_id", "=", UuidArg(userID))] + StartFilter(query) + EndFilter(query)
  }

  /** `WHERE c1 AND c2 ...`, the k-th condition carrying placeholder `$k`. */
  function WhereClause(bs: seq<Binding>): string {
    "WHERE " + Join(Conditions(bs, 1), " AND ")
  }

  /** The page query's text: the WHERE clause, the ordering, then `LIMIT` and `OFFSET`. */
  function ListSql(whereClause: string, argIndex: nat): string {
    ListHead(whereClause) + Limit + Placeholder(argIndex) + OffsetWord + Placeholder(argIndex + 1)
  }

  const ListSelect := "\n\tSELECT id, user_id, activity_name, duration, date, created_at, updated_at\n\tFROM activities \n\t"
  const ListOrder := "\n\tORDER BY date DESC, created_at DESC\n\t"
  const Limit := "LIMIT "
  const OffsetWord := " OFFSET "

  function ListHead(whereClause: string): string {
    ListSelect + whereClause + ListOrder
  }

  /** The count `List` sends first: the same WHERE clause and arguments. */
  function CountStatement(userID: Uuid.UUID, query: GetActivitiesQuery): Statement {
    var bs := Filters(userID, query);
    Statement("SELECT COUNT(*) FROM activities " + WhereClause(bs), Values(bs))
  }

  /** A page query's arguments: the filters', then the page size and the offset. */
  function PageArgs(bs: seq<Binding>, query: GetActivitiesQuery): seq<Arg> {
    Values(bs) + [IntArg(query.limit), IntArg(Offset(query.page, query.limit))]
  }

  /** The page query for the filters `bs`. */
  function PageStatement(bs: seq<Binding>, query: GetActivitiesQuery): Statement {
    Statement(ListSql(WhereClause(bs), |bs| + 1), PageArgs(bs, query))
  }

  /** The arguments of the page query `List` sends. */
  function ListArgs(userID: Uuid.UUID, query: GetActivitiesQuery): seq<Arg> {
    PageArgs(Filters(userID, query), query)
  }

  /** The page query `List` sends next. */
  function ListStatement(userID: Uuid.UUID, query: GetActivitiesQuery): Statement {
    PageStatement(Filters(userID, query), query)
  }

  /** The statement that reads one activity back, when an update has nothing to set. */
  function GetByIDStatement(userID: Uuid.UUID, id: int): Statement {
    Statement(SelectByIDSql("user_id"), [IntArg(id), UuidArg(userID)])
  }

  /** The UPDATE for a request with at least one field. */
  function UpdateStatement(userID: Uuid.UUID, id: int, req: UpdateActivityIn): Statement {
    Statement(UpdateSql("user_id", SetList(Conditions(UpdateFields(req), 3))),
      [IntArg(id), UuidArg(userID)] + Values(UpdateFields(req)))
  }

  /** The DELETE of one activity of the user. */
  function DeleteStatement(userID: Uuid.UUID, id: int): Statement {
    Statement(DeleteSql("user_id"), [IntArg(id), UuidArg(userID)])
  }
}
