/**
  * The activity handlers (`internal/components/activity/router.go`): the listing's query
  * parameters and page numbers, the `{id}` path parameter, the update form, and the rows
  * of the CSV export.
  *
  * Handlers are modelled up to the service call they make: each returns the reply it
  * writes without calling the service, or the call it makes. HTML templates are not
  * modelled; `time.Parse` and `time.Format` are parameters.
  */
module ActivityRouter {
  import opened Common
  import Uuid
  import opened Strconv
  import opened ActivityModels
  import opened Sql
  import RepoStatements

  const DefaultPage := 1
  const DefaultLimit := 20
  const MaxLimit := 100
  const ExportLimit := 10000

  /** A reply written without a service call: status, headers and body. */
  datatype Reply = Reply(status: int, header: map<string, string>, body: string)

  /** `http.Error(w, message, code)`. */
  function PlainError(message: string, code: int): Reply {
    Reply(code, map["Content-Type" := "text/plain; charset=utf-8", "X-Content-Type-Options" := "nosniff"],
      message + "\n")
  }

  /** An HTML fragment written with the implicit 200. */
  function Fragment(body: string): Reply {
    Reply(200, map["Content-Type" := "text/html"], body)
  }

  const InvalidIDError := PlainError("Invalid activity ID", 400)
  const InvalidIDFragment := Fragment("<div class=\"error\">Invalid activity ID</div>")
  const InvalidFormFragment := Fragment("<div class=\"error\">Invalid form data</div>")

  /**
    * `GetActivities`' query: page 1 and 20 rows by default; `page` overrides the page if it
    * is a positive integer, `page_size` the size if it is an integer from 1 to 100, and a
    * date filter is set when its parameter is present and parses. Absent parameters are
    * the empty string, as `URL.Query().Get` returns them.
    */
  method ParseActivitiesQuery(
    page: string, pageSize: string, startDate: string, endDate: string, parseDate: string -> Option<Time>)
    returns (query: GetActivitiesQuery)
    ensures query.page >= 1 && 1 <= query.limit <= MaxLimit
    ensures Atoi(page).Some? && Atoi(page).value > 0 ==> query.page == Atoi(page).value
    ensures query.page != DefaultPage ==> Atoi(page) == Some(query.page)
    ensures Atoi(pageSize).Some? && 0 < Atoi(pageSize).value <= MaxLimit ==> query.limit == Atoi(pageSize).value
    ensures query.limit != DefaultLimit ==> Atoi(pageSize) == Some(query.limit)
    ensures query.startDate.Some? <==> startDate != "" && parseDate(startDate).Some?
    ensures query.startDate.Some? ==> query.startDate == parseDate(startDate)
    ensures query.endDate.Some? <==> endDate != "" && parseDate(endDate).Some?
    ensures query.endDate.Some? ==> query.endDate == parseDate(endDate)
  {
    query := GetActivitiesQuery(DefaultPage, DefaultLimit, None, None);

    if page != "" {
      var p := Atoi(page);
      if p.Some? && p.value > 0 {
        query := query.(page := p.value);
      }
    }
    if pageSize != "" {
      var l := Atoi(pageSize);
      if l.Some? && l.value > 0 && l.value <= MaxLimit {
        query := query.(limit := l.value);
      }
    }

    if startDate != "" {
      var date := parseDate(startDate);
      if date.Some? {
        query := query.(startDate := date);
      }
    }
    if endDate != "" {
      var date := parseDate(endDate);
      if date.Some? {
        query := query.(endDate := date);
      }
    }
  }

  /** Every page the listing links to is read back as that page. */
  lemma PageLinkParses(page: int)
    requires 1 <= page <= MaxInt64
    ensures Atoi(Itoa(page)) == Some(page)
    ensures Itoa(page) != ""
  {
    AtoiItoa(page);
  }

  /** `math.Ceil(float64(total) / float64(limit))`, on integers: the least `q` with `q * limit >= total`. */
  function CeilDiv(total: int, limit: int): (q: int)
    requires limit >= 1
    ensures (q - 1) * limit < total <= q * limit
  {
    var q := (total + limit - 1) / limit;
    CeilBounds(total, limit, q);
    q
  }

  lemma CeilBounds(total: int, limit: int, q: int)
    requires limit >= 1 && q == (total + limit - 1) / limit
    ensures (q - 1) * limit < total <= q * limit
  {
    var r := (total + limit - 1) % limit;
    assert total + limit - 1 == q * limit + r && 0 <= r < limit;
    assert (q - 1) * limit == q * limit - limit;
  }

  /** The page count is the only one that fits `total` rows into pages of `limit`. */
  lemma CeilDivUnique(total: int, limit: int, q: int)
    requires limit >= 1 && (q - 1) * limit < total <= q * limit
    ensures q == CeilDiv(total, limit)
  {
    var c := CeilDiv(total, limit);
    if q < c {
      assert q * limit <= (c - 1) * limit by {
        MulMonotone(q, c - 1, limit);
      }
    } else if q > c {
      assert c * limit <= (q - 1) * limit by {
        MulMonotone(c, q - 1, limit);
      }
    }
  }

  lemma MulMonotone(a: int, b: int, k: int)
    requires a <= b && k >= 0
    ensures a * k <= b * k
  {
    assert b * k - a * k == (b - a) * k;
  }

  /**
    * The page links of the listing: the page count, the next page (capped at the page
    * count) and the previous page (at least 1).
    */
  method Paginate(total: int, page: int, limit: int) returns (totalPages: int, nextPage: int, prevPage: int)
    requires limit >= 1
    ensures (totalPages - 1) * limit < total <= totalPages * limit
    ensures nextPage <= totalPages && nextPage <= page + 1
    ensures nextPage == page + 1 || nextPage == totalPages
    ensures prevPage >= 1 && prevPage >= page - 1
    ensures prevPage == page - 1 || prevPage == 1
    ensures total == 0 && page >= 0 ==> totalPages == 0 && nextPage == 0
  {
    totalPages := CeilDiv(total, limit);
    nextPage := page + 1;
    if nextPage > totalPages {
      nextPage := totalPages;
    }
    prevPage := page - 1;
    if prevPage < 1 {
      prevPage := 1;
    }
  }

  /** With no rows there are no pages, whatever the page size. */
  lemma EmptyListingHasNoPages(limit: int)
    requires limit >= 1
    ensures CeilDiv(0, limit) == 0
  {
    CeilDivUnique(0, limit, 0);
  }

  /** The service call a handler makes once its `{id}` parsed. */
  datatype ServiceCall =
    | GetActivityByIDCall(id: int)
    | DeleteActivityCall(id: int)
    | UpdateActivityCall(id: int, body: UpdateActivityIn)

  /** A handler's first step: a reply written without the service, or the call it makes. */
  datatype Step = Written(reply: Reply) | Call(call: ServiceCall)

  /** `GetEditForm` up to its service call: a bad `{id}` is a 400. */
  function GetEditForm(idStr: string): (s: Step)
    ensures s.Written? <==> Atoi(idStr).None?
    ensures s.Written? ==> s.reply == InvalidIDError
    ensures s.Call? ==> s.call == GetActivityByIDCall(Atoi(idStr).value)
  {
    match Atoi(idStr)
    case None => Written(InvalidIDError)
    case Some(id) => Call(GetActivityByIDCall(id))
  }

  /** `DeleteActivity` up to its service call: a bad `{id}` is an error fragment. */
  function DeleteActivity(idStr: string): (s: Step)
    ensures s.Written? <==> Atoi(idStr).None?
    ensures s.Written? ==> s.reply == InvalidIDFragment
    ensures s.Call? ==> s.call == DeleteActivityCall(Atoi(idStr).value)
  {
    match Atoi(idStr)
    case None => Written(InvalidIDFragment)
    case Some(id) => Call(DeleteActivityCall(id))
  }

  const DeleteFailedBody := "<div class=\"error\">Failed to delete activity</div>"
  const DeletedBody := "<div class=\"success\">Activity deleted successfully!</div>"

  /** `DeleteActivity`'s reply once the service answered. */
  function DeleteReply(err: Option<Error>): (r: Reply)
    ensures r.status == 200 && "Content-Type" in r.header && r.header["Content-Type"] == "text/html"
    ensures "HX-Trigger" in r.header <==> err.None?
    ensures err.None? ==> r.header["HX-Trigger"] == "refreshTable" && r.body == DeletedBody
    ensures err.Some? ==> r.header.Keys == {"Content-Type"} && r.body == DeleteFailedBody
  {
    if err.Some? then Fragment(DeleteFailedBody)
    else Reply(200, map["Content-Type" := "text/html", "HX-Trigger" := "refreshTable"], DeletedBody)
  }

  /** The update form's values; a field the form lacks is the empty string. */
  datatype Form = Form(activityName: string, duration: string, date: string)

  /**
    * The form turned into `UpdateActivityIn`: an empty value leaves its field unset, and
    * so does a duration or a date that does not parse.
    */
  function UpdateBody(form: Form, parseDate: string -> Option<Time>): (body: UpdateActivityIn)
    ensures body.activityName.Some? <==> form.activityName != ""
    ensures body.activityName.Some? ==> body.activityName.value == form.activityName
    ensures body.duration.Some? <==> form.duration != "" && Atoi(form.duration).Some?
    ensures body.duration.Some? ==> body.duration == Atoi(form.duration)
    ensures body.date.Some? <==> form.date != "" && parseDate(form.date).Some?
    ensures body.date.Some? ==> body.date == parseDate(form.date)
  {
    var name := if form.activityName != "" then Some(form.activityName) else None;
    var duration := if form.duration != "" then Atoi(form.duration) else None;
    var date := if form.date != "" then parseDate(form.date) else None;
    UpdateActivityIn(name, duration, date)
  }

  /**
    * `UpdateActivity` up to its service call. `form` is `None` when `ParseForm` failed; the
    * `{id}` is checked first.
    */
  function UpdateActivity(idStr: string, form: Option<Form>, parseDate: string -> Option<Time>): (s: Step)
    ensures Atoi(idStr).None? ==> s == Written(InvalidIDFragment)
    ensures Atoi(idStr).Some? && form.None? ==> s == Written(InvalidFormFragment)
    ensures s.Call? <==> Atoi(idStr).Some? && form.Some?
    ensures s.Call? ==> s.call == UpdateActivityCall(Atoi(idStr).value, UpdateBody(form.value, parseDate))
  {
    match Atoi(idStr)
    case None => Written(InvalidIDFragment)
    case Some(id) =>
      match form
      case None => Written(InvalidFormFragment)
      case Some(f) => Call(UpdateActivityCall(id, UpdateBody(f, parseDate)))
  }

  /** `CancelEdit`: a bad `{id}` is a 400; otherwise the action buttons for that id. */
  function CancelEdit(idStr: string): (r: Result<int, Reply>)
    ensures r.Err? <==> Atoi(idStr).None?
    ensures r.Err? ==> r.error == InvalidIDError
    ensures r.Ok? ==> r.value == Atoi(idStr).value
  {
    match Atoi(idStr)
    case None => Err(InvalidIDError)
    case Some(id) => Ok(id)
  }

  /** A `{id}` that is not an integer reaches no service call, whichever handler gets it. */
  lemma BadIDCallsNothing(idStr: string, form: Option<Form>, parseDate: string -> Option<Time>)
    requires Atoi(idStr).None?
    ensures GetEditForm(idStr).Written? && DeleteActivity(idStr).Written?
    ensures UpdateActivity(idStr, form, parseDate).Written? && CancelEdit(idStr).Err?
  {
  }

  /**
    * An update that sets nothing: the service then only reads the activity back. That is
    * the case exactly when every form value is empty or fails to parse.
    */
  lemma EmptyFormUpdatesNothing(form: Form, parseDate: string -> Option<Time>)
    ensures UpdateFields(UpdateBody(form, parseDate)) == [] <==>
      && form.activityName == ""
      && (form.duration == "" || Atoi(form.duration).None?)
      && (form.date == "" || parseDate(form.date).None?)
  {
  }

  /**
    * The edit form is filled with the activity's name, its duration in decimal and its
    * date; submitted unchanged, it asks to set each field to its current value (the name
    * only when it is not empty), provided the date reads back as written.
    */
  lemma EditFormRoundTrip(
    a: Activity<Uuid.UUID>, formatDate: Time -> string, parseDate: string -> Option<Time>)
    requires MinInt64 <= a.duration <= MaxInt64
    requires parseDate(formatDate(a.date)) == Some(a.date) && formatDate(a.date) != ""
    ensures var body := UpdateBody(Form(a.activityName, Itoa(a.duration), formatDate(a.date)), parseDate);
      && body.duration == Some(a.duration)
      && body.date == Some(a.date)
      && body.activityName == (if a.activityName == "" then None else Some(a.activityName))
  {
    AtoiItoa(a.duration);
  }

  /** The export's query: the first 10000 activities, with no date filter. */
  const ExportQuery := GetActivitiesQuery(1, ExportLimit, None, None)

  /** The export reads the first rows only: offset 0, at most 10000 rows, the owner's alone. */
  lemma ExportReadsFirstPage(userID: Uuid.UUID)
    ensures RepoStatements.ListArgs(userID, ExportQuery) == [UuidArg(userID), IntArg(ExportLimit), IntArg(0)]
  {
    assert RepoStatements.Filters(userID, ExportQuery) == [Binding("user_id", "=", UuidArg(userID))];
  }

  const CsvHeader := ["Activity", "Duration (minutes)", "Date", "Created At"]

  /** One export row: the name, the duration in decimal, the date and the creation time. */
  function CsvRecord(a: Activity<Uuid.UUID>, formatDate: Time -> string, formatTimestamp: Time -> string)
    : (rec: seq<string>)
    ensures |rec| == |CsvHeader|
    ensures rec[0] == a.activityName && rec[2] == formatDate(a.date) && rec[3] == formatTimestamp(a.createdAt)
  {
    [a.activityName, Itoa(a.duration), formatDate(a.date), formatTimestamp(a.createdAt)]
  }

  /** The exported duration reads back as the activity's duration. */
  lemma CsvDurationReadsBack(a: Activity<Uuid.UUID>, formatDate: Time -> string, formatTimestamp: Time -> string)
    requires MinInt64 <= a.duration <= MaxInt64
    ensures Atoi(CsvRecord(a, formatDate, formatTimestamp)[1]) == Some(a.duration)
  {
    AtoiItoa(a.duration);
  }

  /**
    * The records `ExportCSV` hands to the CSV writer, in order: the header, then one row
    * per activity as the service returned them.
    */
  method ExportRecords(
    activities: seq<Activity<Uuid.UUID>>, formatDate: Time -> string, formatTimestamp: Time -> string)
    returns (records: seq<seq<string>>)
    ensures |records| == |activities| + 1 && records[0] == CsvHeader
    ensures forall i | 0 <= i < |activities| :: records[i + 1] == CsvRecord(activities[i], formatDate, formatTimestamp)
  {
    records := [CsvHeader];
    var n := 0;
    while n < |activities|
      invariant 0 <= n <= |activities|
      invariant |records| == n + 1 && records[0] == CsvHeader
      invariant forall i | 0 <= i < n :: records[i + 1] == CsvRecord(activities[i], formatDate, formatTimestamp)
    {
      records := records + [CsvRecord(activities[n], formatDate, formatTimestamp)];
      n := n + 1;
    }
  }
}
