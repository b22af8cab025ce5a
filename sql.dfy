/**
  * The SQL the activity repository and service send to PostgreSQL: statement text with
  * `$n` placeholders and the argument list they bind (`$n` is bound to the n-th argument),
  * the clause builders, the row-scanning loop and the page offset.
  */
module Sql {
  import opened Common
  import Uuid
  import Strconv
  import opened ActivityModels

  /** A value passed to the driver. */
  datatype Arg = UuidArg(id: Uuid.UUID) | TextArg(text: string) | IntArg(n: int) | TimeArg(t: Time)

  /** A statement as handed to the pool: its text and its arguments. */
  datatype Statement = Statement(sql: string, args: seq<Arg>)

  /** `$k`, as `fmt.Sprintf("$%d", k)` writes it: it reads back as `k`. */
  function Placeholder(k: nat): string {
    "$" + Strconv.Decimal(k)
  }

  /** `$k` is a dollar sign followed by the decimal digits of `k`. */
  lemma PlaceholderSpells(k: nat)
    ensures var p := Placeholder(k);
      |p| >= 2 && p[0] == '$' && Strconv.AllDigits(p[1..]) && Strconv.DigitsValue(p[1..]) == k
  {
    Strconv.DecimalSpells(k);
    var p := Placeholder(k);
    assert p[1..] == Strconv.Decimal(k);
  }

  /** Distinct placeholders are written differently. */
  lemma PlaceholderInjective(j: nat, k: nat)
    requires Placeholder(j) == Placeholder(k)
    ensures j == k
  {
    PlaceholderSpells(j);
    PlaceholderSpells(k);
  }

  /** One `column op $k` condition or assignment, with the value `$k` must carry. */
  datatype Binding = Binding(column: string, op: string, value: Arg)

  function Condition(b: Binding, k: nat): string {
    b.column + " " + b.op + " " + Placeholder(k)
  }

  /** The conditions for `bs`, numbered from `$first` on. */
  function Conditions(bs: seq<Binding>, first: nat): (cs: seq<string>)
    ensures |cs| == |bs|
    ensures forall i | 0 <= i < |bs| :: cs[i] == Condition(bs[i], first + i)
  {
    if bs == [] then [] else [Condition(bs[0], first)] + Conditions(bs[1..], first + 1)
  }

  /** The arguments for `bs`, in order. */
  function Values(bs: seq<Binding>): (vs: seq<Arg>)
    ensures |vs| == |bs|
    ensures forall i | 0 <= i < |bs| :: vs[i] == bs[i].value
  {
    if bs == [] then [] else [bs[0].value] + Values(bs[1..])
  }

  /**
    * The binding rule: placeholders `$first`, `$first+1`, ... of `bs` are bound to the
    * arguments at those positions, and those arguments are the values `bs` names.
    */
  predicate Binds(bs: seq<Binding>, first: nat, args: seq<Arg>) {
    && 1 <= first
    && first - 1 + |bs| <= |args|
    && forall i | 0 <= i < |bs| :: args[first - 1 + i] == bs[i].value
  }

  /** Arguments laid out as `prefix`, then `bs`'s values, bind `bs` from `$(|prefix|+1)` on. */
  lemma {:induction false} ValuesBind(prefix: seq<Arg>, bs: seq<Binding>, suffix: seq<Arg>)
    ensures Binds(bs, |prefix| + 1, prefix + Values(bs) + suffix)
  {
    var args := prefix + Values(bs) + suffix;
    forall i | 0 <= i < |bs| ensures args[|prefix| + i] == bs[i].value {
      assert args[|prefix| + i] == Values(bs)[i];
    }
  }

  /** Adding one binding adds one condition, numbered next. */
  lemma ConditionsSnoc(bs: seq<Binding>, b: Binding, first: nat)
    ensures Conditions(bs + [b], first) == Conditions(bs, first) + [Condition(b, first + |bs|)]
  {
    var l := Conditions(bs + [b], first);
    var r := Conditions(bs, first) + [Condition(b, first + |bs|)];
    assert |l| == |r|;
    forall i | 0 <= i < |l| ensures l[i] == r[i] {
      if i < |bs| {
        assert (bs + [b])[i] == bs[i];
      }
    }
  }

  /** Adding one binding adds its value at the end. */
  lemma ValuesSnoc(bs: seq<Binding>, b: Binding)
    ensures Values(bs + [b]) == Values(bs) + [b.value]
  {
    var l := Values(bs + [b]);
    var r := Values(bs) + [b.value];
    assert |l| == |r|;
    forall i | 0 <= i < |l| ensures l[i] == r[i] {
      if i < |bs| {
        assert (bs + [b])[i] == bs[i];
      }
    }
  }

  /** `strings.Join(xs, sep)`. */
  function Join(xs: seq<string>, sep: string): string {
    if |xs| == 0 then ""
    else if |xs| == 1 then xs[0]
    else Join(xs[..|xs| - 1], sep) + sep + xs[|xs| - 1]
  }

  /** Joining one more element puts the separator before it. */
  lemma JoinSnoc(xs: seq<string>, x: string, sep: string)
    requires |xs| >= 1
    ensures Join(xs + [x], sep) == Join(xs, sep) + sep + x
  {
    assert (xs + [x])[..|xs|] == xs;
  }

  /** The joined text begins with the first element. */
  lemma {:induction false} JoinStartsWith(xs: seq<string>, sep: string)
    requires |xs| >= 1
    ensures |xs[0]| <= |Join(xs, sep)| && Join(xs, sep)[..|xs[0]|] == xs[0]
    decreases |xs|
  {
    if |xs| > 1 {
      JoinStartsWith(xs[..|xs| - 1], sep);
      assert xs[..|xs| - 1][0] == xs[0];
    }
  }

  /** `UpdateActivityIn`'s non-nil fields, in the order name, duration, date. */
  function UpdateFields(req: UpdateActivityIn): (bs: seq<Binding>)
    ensures |bs| <= 3
    ensures bs == [] <==> req.activityName.None? && req.duration.None? && req.date.None?
  {
    NameField(req) + DurationField(req) + DateField(req)
  }

  function NameField(req: UpdateActivityIn): seq<Binding> {
    if req.activityName.Some? then [Binding("activity_name", "=", TextArg(req.activityName.value))] else []
  }

  function DurationField(req: UpdateActivityIn): seq<Binding> {
    if req.duration.Some? then [Binding("duration", "=", IntArg(req.duration.value))] else []
  }

  function DateField(req: UpdateActivityIn): seq<Binding> {
    if req.date.Some? then [Binding("date", "=", TimeArg(req.date.value))] else []
  }

  /** An assignment reads `column = $k`. */
  lemma AssignmentText(b: Binding, k: nat)
    requires b.op == "="
    ensures Condition(b, k) == b.column + " = " + Placeholder(k)
  {
    assert b.column + " " + b.op + " " == b.column + " = ";
  }

  /** One step of the SET builder adds the next assignment... */
  lemma AssignmentStep(bs: seq<Binding>, b: Binding, setParts: seq<string>)
    requires b.op == "="
    requires setParts == Conditions(bs, 3)
    ensures setParts + [b.column + " = " + Placeholder(3 + |bs|)] == Conditions(bs + [b], 3)
  {
    ConditionsSnoc(bs, b, 3);
    AssignmentText(b, 3 + |bs|);
  }

  /** ... and its value, at the position that placeholder names. */
  lemma ArgumentStep(bs: seq<Binding>, b: Binding, args: seq<Arg>, prefix: seq<Arg>)
    requires args == prefix + Values(bs)
    ensures args + [b.value] == prefix + Values(bs + [b])
  {
    ValuesSnoc(bs, b);
  }

  /** The SET list of an UPDATE: the assignments, then `updated_at = NOW()`. */
  function SetList(setParts: seq<string>): string {
    Join(setParts + ["updated_at = NOW()"], ", ")
  }

  /**
    * The SET-clause builder of `repo.Update` and `activitySrvc.UpdateActivity`: starting
    * from the arguments `[id, owner]` and `$3`, each non-nil field adds its assignment and
    * its value, and `argIndex` stays one past the last argument.
    */
  method BuildSetParts(id: int, owner: Arg, req: UpdateActivityIn)
    returns (setParts: seq<string>, args: seq<Arg>, argIndex: int)
    ensures argIndex == |args| + 1
    ensures setParts == Conditions(UpdateFields(req), 3)
    ensures args == [IntArg(id), owner] + Values(UpdateFields(req))
  {
    setParts := [];
    args := [IntArg(id), owner];
    argIndex := 3;
    ghost var bs: seq<Binding> := [];

    if req.activityName.Some? {
      var b := NameField(req)[0];
      AssignmentStep(bs, b, setParts);
      ArgumentStep(bs, b, args, [IntArg(id), owner]);
      assert b.column + " = " == "activity_name = ";
      setParts := setParts + ["activity_name = " + Placeholder(argIndex)];
      args := args + [TextArg(req.activityName.value)];
      argIndex := argIndex + 1;
      bs := bs + [b];
    }
    assert bs == NameField(req) && argIndex == |args| + 1 == |bs| + 3;
    assert setParts == Conditions(bs, 3) && args == [IntArg(id), owner] + Values(bs);
    if req.duration.Some? {
      var b := DurationField(req)[0];
      AssignmentStep(bs, b, setParts);
      ArgumentStep(bs, b, args, [IntArg(id), owner]);
      assert b.column + " = " == "duration = ";
      setParts := setParts + ["duration = " + Placeholder(argIndex)];
      args := args + [IntArg(req.duration.value)];
      argIndex := argIndex + 1;
      bs := bs + [b];
    }
    assert bs == NameField(req) + DurationField(req) && argIndex == |args| + 1 == |bs| + 3;
    assert setParts == Conditions(bs, 3) && args == [IntArg(id), owner] + Values(bs);
    if req.date.Some? {
      var b := DateField(req)[0];
      AssignmentStep(bs, b, setParts);
      ArgumentStep(bs, b, args, [IntArg(id), owner]);
      assert b.column + " = " == "date = ";
      setParts := setParts + ["date = " + Placeholder(argIndex)];
      args := args + [TimeArg(req.date.value)];
      argIndex := argIndex + 1;
      bs := bs + [b];
    }
    assert bs == UpdateFields(req);
  }

  /** Every `$k` in an UPDATE's SET list is bound to the value of the field it assigns. */
  lemma UpdateBindsFields(id: int, owner: Arg, req: UpdateActivityIn)
    ensures Binds(UpdateFields(req), 3, [IntArg(id), owner] + Values(UpdateFields(req)))
  {
    ValuesBind([IntArg(id), owner], UpdateFields(req), []);
    assert [IntArg(id), owner] + Values(UpdateFields(req)) + [] == [IntArg(id), owner] + Values(UpdateFields(req));
  }

  /** The assignment list ends with `updated_at = NOW()`, whatever the fields. */
  lemma SetListEndsWithNow(setParts: seq<string>)
    ensures |SetList(setParts)| >= |"updated_at = NOW()"|
    ensures SetList(setParts)[|SetList(setParts)| - |"updated_at = NOW()"|..] == "updated_at = NOW()"
  {
    var xs := setParts + ["updated_at = NOW()"];
    if |xs| > 1 {
      assert xs[..|xs| - 1] == setParts;
    }
  }

  /** The UPDATE statement text, for the table's owner column. */
  function UpdateSql(ownerColumn: string, setList: string): string {
    UpdateHead + setList + ByIDAndOwner + ownerColumn + " = $2" + Returning + ownerColumn + RowColumns
  }

  const UpdateHead := "\n\tUPDATE activities \n\tSET "
  const ByIDAndOwner := "\n\tWHERE id = $1 AND "
  const Returning := "\n\tRETURNING id, "
  const RowColumns := ", activity_name, duration, date, created_at, updated_at"

  /** The statement fetching one activity by id and owner. */
  function SelectByIDSql(ownerColumn: string): string {
    "\n\tSELECT id, " + ownerColumn + RowColumns + "\n\tFROM activities " + ByIDAndOwner + ownerColumn + " = $2"
  }

  /** The DELETE statement text. */
  function DeleteSql(ownerColumn: string): string {
    "DELETE FROM activities WHERE id = $1 AND " + ownerColumn + " = $2"
  }

  /**
    * What a single-row query returns: the scanned row, or the driver's error (`pgx.ErrNoRows`
    * among them) passed on.
    */
  function FromRow<Owner>(reply: Result<Activity<Owner>, string>): (r: Result<Activity<Owner>, Error>)
    ensures r.Ok? <==> reply.Ok?
    ensures r.Ok? ==> r.value == reply.value
    ensures r.Err? ==> r.error == DbError(reply.error)
  {
    match reply
    case Ok(a) => Ok(a)
    case Err(e) => Err(DbError(e))
  }

  /**
    * The not-found rule of `Delete`: a failed statement passes its error on, and a
    * statement that affected no row reports "activity not found".
    */
  function DeleteOutcome(rowsAffected: Result<int, string>): (err: Option<Error>)
    ensures err.None? <==> rowsAffected.Ok? && rowsAffected.value != 0
    ensures rowsAffected == Ok(0) ==> err == Some(ActivityNotFound)
    ensures rowsAffected.Err? ==> err == Some(DbError(rowsAffected.error))
  {
    match rowsAffected
    case Err(e) => Some(DbError(e))
    case Ok(n) => if n == 0 then Some(ActivityNotFound) else None
  }

  /**
    * The `rows.Next()` loop: scan each row in turn and stop at the first one that fails
    * to scan. `rows` is what the database returned, one scan result per row.
    */
  method ScanRows<Owner>(rows: seq<Result<Activity<Owner>, string>>)
    returns (r: Result<seq<Activity<Owner>>, Error>)
    ensures r.Ok? <==> forall i | 0 <= i < |rows| :: rows[i].Ok?
    ensures r.Ok? ==> |r.value| == |rows| && forall i | 0 <= i < |rows| :: r.value[i] == rows[i].value
    ensures r.Err? ==> exists k | 0 <= k < |rows| ::
      && rows[k].Err? && r.error == DbError(rows[k].error)
      && forall i | 0 <= i < k :: rows[i].Ok?
  {
    var activities: seq<Activity<Owner>> := [];
    var n := 0;
    while n < |rows|
      invariant 0 <= n <= |rows|
      invariant forall i | 0 <= i < n :: rows[i].Ok?
      invariant |activities| == n && forall i | 0 <= i < n :: activities[i] == rows[i].value
    {
      if rows[n].Err? {
        return Err(DbError(rows[n].error));
      }
      activities := activities + [rows[n].value];
      n := n + 1;
    }
    return Ok(activities);
  }

  /**
    * The page offset `(page - 1) * limit` in unbounded integers: for a page from 1 on it
    * skips exactly the rows of the earlier pages.
    */
  function Offset(page: int, limit: int): (offset: int)
    ensures page >= 1 && limit >= 0 ==> offset >= 0
    ensures page >= 1 && limit > 0 ==> offset % limit == 0 && offset / limit == page - 1
  {
    OffsetDivides(page, limit);
    (page - 1) * limit
  }

  lemma OffsetDivides(page: int, limit: int)
    ensures page >= 1 && limit >= 0 ==> (page - 1) * limit >= 0
    ensures page >= 1 && limit > 0 ==> (page - 1) * limit % limit == 0 && (page - 1) * limit / limit == page - 1
  {
    if page >= 1 && limit >= 0 {
      NonNegativeProduct(page - 1, limit);
    }
    if page >= 1 && limit > 0 {
      DivUnique((page - 1) * limit, limit, page - 1, 0);
    }
  }

  lemma NonNegativeProduct(a: nat, b: nat)
    ensures a * b >= 0
  {
  }

  /** Euclidean division is determined by a quotient and an in-range remainder. */
  lemma DivUnique(x: int, l: int, q: int, r: int)
    requires l > 0 && 0 <= r < l && x == q * l + r
    ensures x / l == q && x % l == r
  {
    var d := q - x / l;
    assert d * l == x % l - r;
    MultipleBounds(d, l);
  }

  lemma MultipleBounds(d: int, l: int)
    requires l > 0
    ensures d >= 1 ==> d * l >= l
    ensures d <= -1 ==> d * l <= -l
  {
    if d >= 1 {
      NonNegativeProduct(d - 1, l);
      assert d * l == (d - 1) * l + l;
    } else if d <= -1 {
      NonNegativeProduct(-d - 1, l);
      assert d * l == -((-d - 1) * l) - l;
    }
  }

  /** Go's `int` arithmetic: the 64-bit two's-complement value congruent to `x`. */
  function Wrap64(x: int): (r: int)
    ensures Strconv.MinInt64 <= r <= Strconv.MaxInt64
    ensures (r - x) % 0x1_0000_0000_0000_0000 == 0
    ensures Strconv.MinInt64 <= x <= Strconv.MaxInt64 ==> r == x
  {
    var m := x % 0x1_0000_0000_0000_0000;
    if m > Strconv.MaxInt64 then m - 0x1_0000_0000_0000_0000 else m
  }

  /** The offset as the repository and service compute it, in 64-bit `int`s. */
  function Offset64(page: int, limit: int): (offset: int)
    requires Strconv.MinInt64 <= page <= Strconv.MaxInt64
    requires Strconv.MinInt64 <= limit <= Strconv.MaxInt64
    ensures Strconv.MinInt64 <= offset <= Strconv.MaxInt64
    ensures Strconv.MinInt64 < page && Strconv.MinInt64 <= Offset(page, limit) <= Strconv.MaxInt64
      ==> offset == Offset(page, limit)
  {
    var a := Wrap64(page - 1);
    Wrap64(a * limit)
  }

  /**
    * Page numbers the router accepts make the 64-bit offset wrap: page 2^62 + 1 at the
    * default page size reads from row 0, the first page, and page 2^62 asks for a
    * negative offset.
    */
  lemma OffsetOverflow()
    ensures Offset64(0x4000_0000_0000_0001, 20) == 0 != Offset(0x4000_0000_0000_0001, 20)
    ensures Offset64(0x4000_0000_0000_0000, 20) == -20
  {
  }
}
