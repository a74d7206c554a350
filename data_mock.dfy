/**
 * The seeding workflows of internal/gomock/data-mock.go over an abstract database.
 * Tables are sequences of rows held by a `Database` object; random choices, the scheduled
 * status and the success of each statement are oracle inputs. `log.Fatal` ends the process,
 * which discards an open transaction: the model reports it as `Aborted` with nothing written.
 */
module DataMock {
  import O = Outcomes
  import RE = RandomEntity

  // ---------------------------------------------------------------------------------------
  // Rows

  datatype Role = Analyst | Master | Manager | Administrator
  datatype Status = Pending | InProgress | Completed

  /** A row of employee_service_center. */
  datatype Assignment = Assignment(employee: int, center: int, role: Role)
  datatype SparePart = SparePart(id: int, stock: int)
  datatype Order = Order(id: int, customer: int, center: int, manager: int, master: int, status: Status)
  /** A row of spare_part_order (its price is left out). */
  datatype PartOrder = PartOrder(part: int, order: int, quantity: int)
  datatype ServiceOrder = ServiceOrder(service: int, order: int)
  /** A row of receipts (its amounts are left out). */
  datatype Receipt = Receipt(order: int)
  datatype User = User(login: string, password: string)

  function RoleName(r: Role): string
  {
    match r
    case Analyst => "Analyst"
    case Master => "Master"
    case Manager => "Manager"
    case Administrator => "Administrator"
  }

  /** `orderStatuses[rand.IntN(3)]` with the draw as an oracle. */
  function StatusOf(k: nat): Status
  {
    [Pending, InProgress, Completed][k % 3]
  }

  /** Each of the three statuses is drawn for some oracle value. */
  lemma StatusReachable(s: Status)
    ensures exists d: nat :: d < 3 && StatusOf(d) == s
  {
    var d := match s case Pending => 0 case InProgress => 1 case Completed => 2;
    assert StatusOf(d) == s;
  }

  /** A loop `for i := 0; i < n; i++` runs this many times. */
  function Count(n: int): nat
  {
    if n < 0 then 0 else n
  }

  /** The tables the workflows read and write; service and customer rows are their ids. */
  datatype Tables = Tables(
    staff: seq<Assignment>,
    customers: seq<int>,
    parts: seq<SparePart>,
    services: seq<int>,
    orders: seq<Order>,
    partOrders: seq<PartOrder>,
    serviceOrders: seq<ServiceOrder>,
    receipts: seq<Receipt>,
    nextOrderId: int)

  predicate OrderExists(orders: seq<Order>, id: int)
  {
    exists o :: o in orders && o.id == id
  }

  predicate HasReceipt(receipts: seq<Receipt>, id: int)
  {
    Receipt(id) in receipts
  }

  /** Order ids are below the serial counter and unique; each order's master and manager
      work at its center in those roles and its customer exists. */
  predicate OrdersConsistent(t: Tables)
  {
    (forall o :: o in t.orders ==> o.id < t.nextOrderId)
    && (forall i, j :: 0 <= i < j < |t.orders| ==> t.orders[i].id != t.orders[j].id)
    && (forall o :: o in t.orders ==>
          Assignment(o.master, o.center, Master) in t.staff && Assignment(o.manager, o.center, Manager) in t.staff
          && o.customer in t.customers)
  }

  /** No two orders share an id (the primary key of `orders`). */
  predicate UniqueOrderIds(orders: seq<Order>)
  {
    forall i, j :: 0 <= i < j < |orders| ==> orders[i].id != orders[j].id
  }

  /** Each spare-part row names an existing order and a part whose stock covered its quantity
      of 1..5, and no (part, order) pair repeats. */
  predicate PartOrdersConsistent(t: Tables)
  {
    (forall po :: po in t.partOrders ==>
       OrderExists(t.orders, po.order) && 1 <= po.quantity <= 5
       && exists p :: p in t.parts && p.id == po.part && po.quantity <= p.stock)
    && (forall i, j :: 0 <= i < j < |t.partOrders| ==>
          t.partOrders[i].part != t.partOrders[j].part || t.partOrders[i].order != t.partOrders[j].order)
  }

  /** Each service row names an existing order and service, and no row repeats. */
  predicate ServiceOrdersConsistent(t: Tables)
  {
    (forall so :: so in t.serviceOrders ==> OrderExists(t.orders, so.order) && so.service in t.services)
    && (forall i, j :: 0 <= i < j < |t.serviceOrders| ==> t.serviceOrders[i] != t.serviceOrders[j])
  }

  /** Receipts exist only for completed orders, at most one per order. */
  predicate ReceiptsConsistent(t: Tables)
  {
    (forall rc :: rc in t.receipts ==> exists o :: o in t.orders && o.id == rc.order && o.status == Completed)
    && (forall i, j :: 0 <= i < j < |t.receipts| ==> t.receipts[i] != t.receipts[j])
  }

  /** The rules the seeder is written to keep. */
  predicate Consistent(t: Tables)
  {
    OrdersConsistent(t) && PartOrdersConsistent(t) && ServiceOrdersConsistent(t) && ReceiptsConsistent(t)
  }

  /** The database the seeder talks to. */
  class Database {
    var staff: seq<Assignment>
    var customers: seq<int>
    var parts: seq<SparePart>
    var services: seq<int>
    var orders: seq<Order>
    var partOrders: seq<PartOrder>
    var serviceOrders: seq<ServiceOrder>
    var receipts: seq<Receipt>
    /** The next value of the orders serial column. */
    var nextOrderId: int

    constructor (t: Tables)
      ensures Snapshot() == t
    {
      staff, customers, parts, services := t.staff, t.customers, t.parts, t.services;
      orders, partOrders, serviceOrders, receipts := t.orders, t.partOrders, t.serviceOrders, t.receipts;
      nextOrderId := t.nextOrderId;
    }

    function Snapshot(): Tables
      reads this
    {
      Tables(staff, customers, parts, services, orders, partOrders, serviceOrders, receipts, nextOrderId)
    }
  }

  // ---------------------------------------------------------------------------------------
  // Who can staff an order

  predicate HasRole(staff: seq<Assignment>, c: int, r: Role)
  {
    exists a :: a in staff && a.center == c && a.role == r
  }

  predicate Supervisory(r: Role) { r == Manager || r == Master }

  /** The employee ids the master and manager queries return for center `c`: one per
      matching row of employees joined with employee_service_center. */
  function RoleHolders(staff: seq<Assignment>, c: int, r: Role): (ids: seq<int>)
    ensures forall e :: e in ids ==> Assignment(e, c, r) in staff
  {
    if staff == [] then []
    else
      var a := staff[|staff| - 1];
      RoleHolders(staff[..|staff| - 1], c, r) + (if a.center == c && a.role == r then [a.employee] else [])
  }

  lemma {:induction false} RoleHoldersComplete(staff: seq<Assignment>, c: int, r: Role, e: int)
    requires Assignment(e, c, r) in staff
    ensures e in RoleHolders(staff, c, r)
  {
    var init := staff[..|staff| - 1];
    if staff[|staff| - 1] != Assignment(e, c, r) {
      assert Assignment(e, c, r) in init;
      RoleHoldersComplete(init, c, r, e);
    }
  }

  /** The groups of `GROUP BY service_center_id` over Manager and Master rows, each once. */
  function Groups(staff: seq<Assignment>): (cs: seq<int>)
    ensures forall c :: c in cs ==> exists a :: a in staff && a.center == c && Supervisory(a.role)
    ensures forall i, j :: 0 <= i < j < |cs| ==> cs[i] != cs[j]
  {
    if staff == [] then []
    else
      var a := staff[|staff| - 1];
      var init := Groups(staff[..|staff| - 1]);
      if Supervisory(a.role) && a.center !in init then init + [a.center] else init
  }

  lemma {:induction false} GroupsComplete(staff: seq<Assignment>, a: Assignment)
    requires a in staff && Supervisory(a.role)
    ensures a.center in Groups(staff)
  {
    var init := staff[..|staff| - 1];
    if staff[|staff| - 1] != a {
      assert a in init;
      GroupsComplete(init, a);
    }
  }

  /** The distinct Manager/Master roles held at center `c`. */
  function RolesAt(staff: seq<Assignment>, c: int): set<Role>
  {
    set a | a in staff && a.center == c && Supervisory(a.role) :: a.role
  }

  /** `HAVING COUNT(DISTINCT employee_role) > 1`. */
  function Having(groups: seq<int>, staff: seq<Assignment>): (cs: seq<int>)
    ensures forall c :: c in cs ==> c in groups && |RolesAt(staff, c)| > 1
    ensures (forall i, j :: 0 <= i < j < |groups| ==> groups[i] != groups[j])
              ==> (forall i, j :: 0 <= i < j < |cs| ==> cs[i] != cs[j])
  {
    if groups == [] then []
    else
      var init := Having(groups[..|groups| - 1], staff);
      var c := groups[|groups| - 1];
      if |RolesAt(staff, c)| > 1 then init + [c] else init
  }

  lemma {:induction false} HavingComplete(groups: seq<int>, staff: seq<Assignment>, c: int)
    requires c in groups && |RolesAt(staff, c)| > 1
    ensures c in Having(groups, staff)
  {
    var init := groups[..|groups| - 1];
    if groups[|groups| - 1] != c {
      assert c in init;
      HavingComplete(init, staff, c);
    }
  }

  /** The centers the center query can return. */
  function QualifiedCenters(staff: seq<Assignment>): seq<int>
  {
    Having(Groups(staff), staff)
  }

  /** Two distinct roles out of {Manager, Master} are both of them. */
  lemma TwoRolesAreBoth(staff: seq<Assignment>, c: int)
    ensures |RolesAt(staff, c)| > 1 <==> HasRole(staff, c, Master) && HasRole(staff, c, Manager)
  {
    var s := RolesAt(staff, c);
    if HasRole(staff, c, Master) && HasRole(staff, c, Manager) {
      var m :| m in staff && m.center == c && m.role == Master;
      var g :| g in staff && g.center == c && g.role == Manager;
      assert m.role in s && g.role in s;
      assert {Master, Manager} <= s;
      assert |{Master, Manager}| == 2;
      SubsetSize({Master, Manager}, s);
    } else if Master !in s {
      assert s <= {Manager};
      SubsetSize(s, {Manager});
    } else {
      var m :| m in staff && m.center == c && Supervisory(m.role) && m.role == Master;
      assert HasRole(staff, c, Master);
      assert forall a :: a in staff && a.center == c && Supervisory(a.role) ==> a.role == Master;
      assert s <= {Master};
      SubsetSize(s, {Master});
    }
  }

  lemma SubsetSize(a: set<Role>, b: set<Role>)
    requires a <= b
    ensures |a| <= |b|
  {
    assert b == a + (b - a);
  }

  /** The center query returns exactly the centers that have both a master and a manager. */
  lemma QualifiedMeansBothRoles(staff: seq<Assignment>, c: int)
    ensures c in QualifiedCenters(staff) <==> HasRole(staff, c, Master) && HasRole(staff, c, Manager)
  {
    TwoRolesAreBoth(staff, c);
    if HasRole(staff, c, Master) && HasRole(staff, c, Manager) {
      var m :| m in staff && m.center == c && m.role == Master;
      GroupsComplete(staff, m);
      HavingComplete(Groups(staff), staff, c);
    }
  }

  // ---------------------------------------------------------------------------------------
  // The selection queries, built with the random-id builder

  /** The join both crew queries use. */
  const StaffJoin := RE.Join("INNER", "employee_service_center", "employees.employee_id = employee_service_center.employee_id")

  /** The options of the crew query for role `r` at center `c`; the master query names the
      role column `employee_service_center.employee_role`, the manager query `employee_role`. */
  function CrewOptions(roleColumn: string, r: Role, c: int): seq<RE.Option>
  {
    [RE.WithJoins([StaffJoin]),
     RE.WithWhereClause(O.Some(RE.And([RE.Eq(roleColumn, RE.Text(RoleName(r))), RE.Eq("employee_service_center.service_center_id", RE.Int(c))])))]
  }

  /** The row employees INNER JOIN employee_service_center yields for an assignment (every
      assignment names an existing employee), under the column names the queries use. */
  function StaffRow(a: Assignment): RE.Row
  {
    map["employees.employee_id" := RE.Int(a.employee),
        "employee_service_center.employee_role" := RE.Text(RoleName(a.role)),
        "employee_role" := RE.Text(RoleName(a.role)),
        "employee_service_center.service_center_id" := RE.Int(a.center)]
  }

  function StaffRows(staff: seq<Assignment>): (rows: seq<RE.Row>)
    ensures |rows| == |staff|
  {
    if staff == [] then [] else StaffRows(staff[..|staff| - 1]) + [StaffRow(staff[|staff| - 1])]
  }

  lemma RoleNameInjective(a: Role, b: Role)
    ensures RoleName(a) == RoleName(b) <==> a == b
  {
    if a != b {
      assert RoleName(a)[0] != RoleName(b)[0] || |RoleName(a)| != |RoleName(b)|;
    }
  }

  /** The crew filter holds of an assignment's row exactly when it has that role at that center. */
  lemma CrewFilterMatches(roleColumn: string, r: Role, c: int, a: Assignment)
    requires roleColumn == "employee_service_center.employee_role" || roleColumn == "employee_role"
    ensures RE.Passes(CrewOptions(roleColumn, r, c)[1].where, StaffRow(a)) <==> a.role == r && a.center == c
  {
    var row := StaffRow(a);
    var p0 := RE.Eq(roleColumn, RE.Text(RoleName(r)));
    var p1 := RE.Eq("employee_service_center.service_center_id", RE.Int(c));
    assert RE.Lookup(row, roleColumn) == RE.Text(RoleName(a.role));
    assert RE.Lookup(row, "employee_service_center.service_center_id") == RE.Int(a.center);
    RoleNameInjective(a.role, r);
    var ps := [p0, p1];
    assert ps[0] == p0 && ps[1] == p1;
    assert RE.Eval(p0, row) == (if a.role == r then RE.Yes else RE.No);
    assert RE.Eval(p1, row) == (if a.center == c then RE.Yes else RE.No);
  }

  /** Extending the matched rows and the ids by corresponding entries keeps them in step. */
  lemma IdsExtend(m: seq<RE.Row>, ids: seq<int>, row: RE.Row, id: int, hit: bool)
    requires |m| == |ids| && forall k :: 0 <= k < |m| ==> RE.Lookup(m[k], "employees.employee_id") == RE.Int(ids[k])
    requires RE.Lookup(row, "employees.employee_id") == RE.Int(id)
    ensures var m2, ids2 := m + (if hit then [row] else []), ids + (if hit then [id] else []);
            |m2| == |ids2| && forall k :: 0 <= k < |m2| ==> RE.Lookup(m2[k], "employees.employee_id") == RE.Int(ids2[k])
  {
  }

  /** The rows passing the crew filter carry, in order, exactly the role holders' ids. */
  lemma {:induction false} CrewMatches(roleColumn: string, r: Role, c: int, staff: seq<Assignment>)
    requires roleColumn == "employee_service_center.employee_role" || roleColumn == "employee_role"
    ensures var m := RE.Matching(CrewOptions(roleColumn, r, c)[1].where, StaffRows(staff));
            |m| == |RoleHolders(staff, c, r)|
            && forall k :: 0 <= k < |m| ==> RE.Lookup(m[k], "employees.employee_id") == RE.Int(RoleHolders(staff, c, r)[k])
  {
    if staff != [] {
      var init := staff[..|staff| - 1];
      var a := staff[|staff| - 1];
      var filter := CrewOptions(roleColumn, r, c)[1].where;
      CrewMatches(roleColumn, r, c, init);
      CrewFilterMatches(roleColumn, r, c, a);
      assert StaffRows(staff) == StaffRows(init) + [StaffRow(a)];
      MatchingSnoc(filter, StaffRows(init), StaffRow(a));
      assert RE.Lookup(StaffRow(a), "employees.employee_id") == RE.Int(a.employee);
      var hit := a.center == c && a.role == r;
      assert RoleHolders(staff, c, r) == RoleHolders(init, c, r) + (if hit then [a.employee] else []);
      IdsExtend(RE.Matching(filter, StaffRows(init)), RoleHolders(init, c, r), StaffRow(a), a.employee, hit);
    }
  }

  /** Filtering a table with one more row at the end. */
  lemma MatchingSnoc(filter: O.Option<RE.Predicate>, init: seq<RE.Row>, row: RE.Row)
    ensures RE.Matching(filter, init + [row]) == RE.Matching(filter, init) + (if RE.Passes(filter, row) then [row] else [])
  {
    var rows := init + [row];
    assert rows[..|rows| - 1] == init && rows[|rows| - 1] == row;
  }

  /** The crew options configure one inner join and the crew filter, so the builder runs the
      query `employees.employee_id` over the joined rows with that filter. */
  lemma CrewQueryBuilt(roleColumn: string, r: Role, c: int, rows: seq<RE.Row>, pick: nat)
    ensures var q := RE.Query("employees.employee_id", "employees", [RE.Clause(StaffJoin)], CrewOptions(roleColumn, r, c)[1].where, "RANDOM()", 1);
            RE.Select("employees", "employee_id", CrewOptions(roleColumn, r, c), rows, pick) == RE.Execute(q, rows, pick)
  {
    var opts := CrewOptions(roleColumn, r, c);
    var filter := opts[1].where;
    var first := opts[..1];
    assert first == [RE.WithJoins([StaffJoin])] && first[..0] == [];
    assert RE.Configure(first[..0]) == O.Success(([], O.None));
    assert RE.Configure(first) == O.Success(([StaffJoin], O.None));
    assert opts[..|opts| - 1] == first && opts[|opts| - 1] == RE.WithWhereClause(filter);
    assert RE.Configure(opts) == O.Success(([StaffJoin], filter));
    assert RE.UpperString("INNER") == "INNER";
    assert RE.Supported(StaffJoin);
    assert RE.FirstUnsupported([StaffJoin]) == 1;
    var clauses := seq(1, i requires 0 <= i < 1 => RE.Clause([StaffJoin][i]));
    assert clauses == [RE.Clause(StaffJoin)];
    assert "employees" + "." + "employee_id" == "employees.employee_id";
    assert RE.Assemble("employees", "employee_id", [StaffJoin], filter)
        == O.Success(RE.Query("employees.employee_id", "employees", clauses, filter, "RANDOM()", 1));
  }

  /** The master and manager queries, run with the random-id builder over the joined rows,
      return exactly a random role holder of the chosen center, and NotFound when there is none. */
  lemma CrewQueryIsRoleHolders(roleColumn: string, r: Role, c: int, staff: seq<Assignment>, pick: nat)
    requires roleColumn == "employee_service_center.employee_role" || roleColumn == "employee_role"
    ensures RE.Select("employees", "employee_id", CrewOptions(roleColumn, r, c), StaffRows(staff), pick)
              == match RE.Choose(RoleHolders(staff, c, r), pick)
                 case None => O.Failure(RE.NotFound)
                 case Some(e) => O.Success(e)
  {
    CrewQueryBuilt(roleColumn, r, c, StaffRows(staff), pick);
    CrewMatches(roleColumn, r, c, staff);
  }

  /** The row of a single-column table of ids, under the query's qualified column name. */
  function IdRows(column: string, ids: seq<int>): (rows: seq<RE.Row>)
    ensures |rows| == |ids| && forall k :: 0 <= k < |ids| ==> rows[k] == map[column := RE.Int(ids[k])]
  {
    seq(|ids|, k requires 0 <= k < |ids| => map[column := RE.Int(ids[k])])
  }

  lemma {:induction false} UnfilteredMatchesAll(rows: seq<RE.Row>)
    ensures RE.Matching(O.None, rows) == rows
  {
    if rows != [] {
      UnfilteredMatchesAll(rows[..|rows| - 1]);
    }
  }

  /** The customer, spare-part and service queries (no options) return a random id of the
      table, and NotFound only for an empty table. */
  lemma IdQueryIsChoice(table: string, column: string, ids: seq<int>, pick: nat)
    ensures RE.Select(table, column, [], IdRows(table + "." + column, ids), pick)
              == match RE.Choose(ids, pick)
                 case None => O.Failure(RE.NotFound)
                 case Some(id) => O.Success(id)
  {
    RE.NoOptionsPlainQuery(table, column);
    UnfilteredMatchesAll(IdRows(table + "." + column, ids));
  }

  // ---------------------------------------------------------------------------------------
  // One order attempt: center, crew and customer

  /** The oracle draws of one order attempt. */
  datatype PartDraw = PartDraw(pick: nat, quantity: nat, stockReadOk: bool, insertOk: bool)
  datatype ServiceDraw = ServiceDraw(pick: nat, insertOk: bool)
  datatype AttemptDraw = AttemptDraw(
    centerPick: nat, masterPick: nat, managerPick: nat, customerPick: nat,
    status: nat, orderInsertOk: bool, parts: seq<PartDraw>, services: seq<ServiceDraw>)

  datatype Crew = Crew(center: int, master: int, manager: int, customer: int)

  /** No qualified center is fatal; a missing master, manager or customer skips the attempt. */
  datatype Selection = Halted | Skipped | Chosen(crew: Crew)

  function SelectCrew(t: Tables, a: AttemptDraw): (s: Selection)
    ensures s.Chosen? ==> s.crew.center in QualifiedCenters(t.staff)
    ensures s.Chosen? ==> Assignment(s.crew.master, s.crew.center, Master) in t.staff
    ensures s.Chosen? ==> Assignment(s.crew.manager, s.crew.center, Manager) in t.staff
    ensures s.Chosen? ==> s.crew.customer in t.customers
  {
    match RE.Choose(QualifiedCenters(t.staff), a.centerPick)
    case None => Halted
    case Some(c) =>
      match RE.Choose(RoleHolders(t.staff, c, Master), a.masterPick)
      case None => Skipped
      case Some(m) =>
        match RE.Choose(RoleHolders(t.staff, c, Manager), a.managerPick)
        case None => Skipped
        case Some(g) =>
          match RE.Choose(t.customers, a.customerPick)
          case None => Skipped
          case Some(u) => Chosen(Crew(c, m, g, u))
  }

  /** Since a qualified center has both a master and a manager, an attempt is skipped only
      when there is no customer; it halts exactly when no center qualifies. */
  lemma SkipOnlyWithoutCustomers(t: Tables, a: AttemptDraw)
    ensures SelectCrew(t, a).Halted? <==> QualifiedCenters(t.staff) == []
    ensures SelectCrew(t, a).Skipped? <==> QualifiedCenters(t.staff) != [] && t.customers == []
  {
    var cs := QualifiedCenters(t.staff);
    if cs != [] {
      var c := cs[a.centerPick % |cs|];
      QualifiedMeansBothRoles(t.staff, c);
      var m :| m in t.staff && m.center == c && m.role == Master;
      var g :| g in t.staff && g.center == c && g.role == Manager;
      assert m == Assignment(m.employee, c, Master) && g == Assignment(g.employee, c, Manager);
      RoleHoldersComplete(t.staff, c, Master, m.employee);
      RoleHoldersComplete(t.staff, c, Manager, g.employee);
    }
  }

  // ---------------------------------------------------------------------------------------
  // Spare parts of one order

  /** Outcome of an attachment loop: the rows it inserted, a failed insert, or `log.Fatal`. */
  datatype Attach<T> = Inserted(rows: seq<T>) | InsertFailed | Fatal

  function PartAt(parts: seq<SparePart>, d: PartDraw): SparePart
    requires parts != []
  {
    parts[d.pick % |parts|]
  }

  /** `gofakeit.Number(1, 5)` with the draw as an oracle. */
  function Quantity(d: PartDraw): (q: int)
    ensures 1 <= q <= 5
  {
    1 + d.quantity % 5
  }

  /** Slot `k` draws a part no earlier slot of the same order drew. */
  predicate FirstPartDraw(parts: seq<SparePart>, ds: seq<PartDraw>, k: nat)
    requires parts != [] && k < |ds|
  {
    forall j :: 0 <= j < k ==> PartAt(parts, ds[j]).id != PartAt(parts, ds[k]).id
  }

  /** Slot `k` reaches its insert: a first draw whose stock read succeeds and covers the quantity. */
  predicate PartGranted(parts: seq<SparePart>, ds: seq<PartDraw>, k: nat)
    requires parts != [] && k < |ds|
  {
    FirstPartDraw(parts, ds, k) && ds[k].stockReadOk && Quantity(ds[k]) <= PartAt(parts, ds[k]).stock
  }

  function PartRow(parts: seq<SparePart>, order: int, d: PartDraw): PartOrder
    requires parts != []
  {
    PartOrder(PartAt(parts, d).id, order, Quantity(d))
  }

  /** The rows the first `n` slots insert. */
  function GrantedParts(parts: seq<SparePart>, order: int, ds: seq<PartDraw>, n: nat): seq<PartOrder>
    requires parts != [] && n <= |ds|
  {
    if n == 0 then []
    else GrantedParts(parts, order, ds, n - 1) + (if PartGranted(parts, ds, n - 1) then [PartRow(parts, order, ds[n - 1])] else [])
  }

  /** The spare-part loop of one order: with no part to pick the first slot is fatal; the
      first granted slot whose insert fails fails the loop; otherwise the granted rows. */
  function PartRows(parts: seq<SparePart>, order: int, ds: seq<PartDraw>): Attach<PartOrder>
  {
    if ds == [] then Inserted([])
    else if parts == [] then Fatal
    else if exists k :: 0 <= k < |ds| && PartGranted(parts, ds, k) && !ds[k].insertOk then InsertFailed
    else Inserted(GrantedParts(parts, order, ds, |ds|))
  }

  /** The part ids the first `v` slots marked used. */
  function UsedParts(parts: seq<SparePart>, ds: seq<PartDraw>, v: nat): set<int>
    requires parts != [] && v <= |ds|
  {
    if v == 0 then {} else UsedParts(parts, ds, v - 1) + {PartAt(parts, ds[v - 1]).id}
  }

  /** Slot `v` is a first draw exactly when its part is not yet marked used. */
  lemma {:induction false} PartsSeen(parts: seq<SparePart>, ds: seq<PartDraw>, v: nat, w: nat)
    requires parts != [] && v <= w < |ds|
    ensures PartAt(parts, ds[w]).id in UsedParts(parts, ds, v) <==> exists j :: 0 <= j < v && PartAt(parts, ds[j]).id == PartAt(parts, ds[w]).id
  {
    if v > 0 {
      PartsSeen(parts, ds, v - 1, w);
    }
  }

  /** The loop with its `usedSpareParts` set; the part id is marked used before the stock read. */
  method AttachParts(parts: seq<SparePart>, order: int, ds: seq<PartDraw>) returns (r: Attach<PartOrder>)
    ensures r == PartRows(parts, order, ds)
  {
    var rows: seq<PartOrder> := [];
    var used: set<int> := {};
    var v := 0;
    while v < |ds|
      invariant 0 <= v <= |ds|
      invariant v > 0 ==> parts != []
      invariant v == 0 ==> rows == []
      invariant parts != [] ==> used == UsedParts(parts, ds, v)
      invariant parts != [] ==> rows == GrantedParts(parts, order, ds, v)
      invariant parts != [] ==> forall j :: 0 <= j < v && PartGranted(parts, ds, j) ==> ds[j].insertOk
    {
      var found := RE.Choose(parts, ds[v].pick);
      if found.None? {
        return Fatal;
      }
      var part := found.value;
      assert part == PartAt(parts, ds[v]);
      PartsSeen(parts, ds, v, v);
      if part.id !in used {
        used := used + {part.id};
        var quantity := Quantity(ds[v]);
        if ds[v].stockReadOk && part.stock >= quantity {
          if !ds[v].insertOk {
            return InsertFailed;
          }
          rows := rows + [PartOrder(part.id, order, quantity)];
        }
      }
      v := v + 1;
    }
    return Inserted(rows);
  }

  /** Every inserted row belongs to the order, has quantity 1..5 covered by the drawn part's
      stock, and no part appears twice; there are at most as many rows as slots. */
  lemma {:induction false} GrantedPartsSound(parts: seq<SparePart>, order: int, ds: seq<PartDraw>, n: nat)
    requires parts != [] && n <= |ds|
    ensures |GrantedParts(parts, order, ds, n)| <= n
    ensures forall po :: po in GrantedParts(parts, order, ds, n) ==>
              po.order == order && 1 <= po.quantity <= 5 && exists p :: p in parts && p.id == po.part && po.quantity <= p.stock
    ensures forall i, j :: 0 <= i < j < |GrantedParts(parts, order, ds, n)| ==>
              GrantedParts(parts, order, ds, n)[i].part != GrantedParts(parts, order, ds, n)[j].part
    ensures forall po :: po in GrantedParts(parts, order, ds, n) ==> exists k :: 0 <= k < n && PartGranted(parts, ds, k) && po == PartRow(parts, order, ds[k])
  {
    if n > 0 {
      GrantedPartsSound(parts, order, ds, n - 1);
      if PartGranted(parts, ds, n - 1) {
        var prev := GrantedParts(parts, order, ds, n - 1);
        var row := PartRow(parts, order, ds[n - 1]);
        assert PartAt(parts, ds[n - 1]) in parts;
        forall i | 0 <= i < |prev|
          ensures prev[i].part != row.part
        {
          assert prev[i] in prev;
        }
      }
    }
  }

  /** A part skipped for low stock (or a failed stock read) is not retried: no row of the
      order carries it, because later draws of the same part are duplicates. */
  lemma {:induction false} SkippedPartNotRetried(parts: seq<SparePart>, order: int, ds: seq<PartDraw>, n: nat, k: nat)
    requires parts != [] && k < n <= |ds|
    requires FirstPartDraw(parts, ds, k) && !PartGranted(parts, ds, k)
    ensures forall po :: po in GrantedParts(parts, order, ds, n) ==> po.part != PartAt(parts, ds[k]).id
  {
    GrantedPartsSound(parts, order, ds, n);
    forall po | po in GrantedParts(parts, order, ds, n)
      ensures po.part != PartAt(parts, ds[k]).id
    {
      var j :| 0 <= j < n && PartGranted(parts, ds, j) && po == PartRow(parts, order, ds[j]);
      if j < k {
        assert PartAt(parts, ds[j]).id != PartAt(parts, ds[k]).id;
      } else {
        assert j != k;
        assert PartAt(parts, ds[k]).id != PartAt(parts, ds[j]).id;
      }
    }
  }

  // ---------------------------------------------------------------------------------------
  // Services of one order

  function ServiceAt(services: seq<int>, d: ServiceDraw): int
    requires services != []
  {
    services[d.pick % |services|]
  }

  predicate FirstServiceDraw(services: seq<int>, ds: seq<ServiceDraw>, k: nat)
    requires services != [] && k < |ds|
  {
    forall j :: 0 <= j < k ==> ServiceAt(services, ds[j]) != ServiceAt(services, ds[k])
  }

  function FirstServices(services: seq<int>, order: int, ds: seq<ServiceDraw>, n: nat): seq<ServiceOrder>
    requires services != [] && n <= |ds|
  {
    if n == 0 then []
    else FirstServices(services, order, ds, n - 1)
         + (if FirstServiceDraw(services, ds, n - 1) then [ServiceOrder(ServiceAt(services, ds[n - 1]), order)] else [])
  }

  /** The service loop of one order: like the spare-part loop without the stock check. */
  function ServiceRows(services: seq<int>, order: int, ds: seq<ServiceDraw>): Attach<ServiceOrder>
  {
    if ds == [] then Inserted([])
    else if services == [] then Fatal
    else if exists k :: 0 <= k < |ds| && FirstServiceDraw(services, ds, k) && !ds[k].insertOk then InsertFailed
    else Inserted(FirstServices(services, order, ds, |ds|))
  }

  /** The services the first `v` slots marked used. */
  function UsedServices(services: seq<int>, ds: seq<ServiceDraw>, v: nat): set<int>
    requires services != [] && v <= |ds|
  {
    if v == 0 then {} else UsedServices(services, ds, v - 1) + {ServiceAt(services, ds[v - 1])}
  }

  /** Slot `v` is a first draw exactly when its service is not yet marked used. */
  lemma {:induction false} ServicesSeen(services: seq<int>, ds: seq<ServiceDraw>, v: nat, w: nat)
    requires services != [] && v <= w < |ds|
    ensures ServiceAt(services, ds[w]) in UsedServices(services, ds, v) <==> exists j :: 0 <= j < v && ServiceAt(services, ds[j]) == ServiceAt(services, ds[w])
  {
    if v > 0 {
      ServicesSeen(services, ds, v - 1, w);
    }
  }

  /** The loop with its `usedService` set. */
  method AttachServices(services: seq<int>, order: int, ds: seq<ServiceDraw>) returns (r: Attach<ServiceOrder>)
    ensures r == ServiceRows(services, order, ds)
  {
    var rows: seq<ServiceOrder> := [];
    var used: set<int> := {};
    var v := 0;
    while v < |ds|
      invariant 0 <= v <= |ds|
      invariant v > 0 ==> services != []
      invariant v == 0 ==> rows == []
      invariant services != [] ==> used == UsedServices(services, ds, v)
      invariant services != [] ==> rows == FirstServices(services, order, ds, v)
      invariant services != [] ==> forall j :: 0 <= j < v && FirstServiceDraw(services, ds, j) ==> ds[j].insertOk
    {
      var found := RE.Choose(services, ds[v].pick);
      if found.None? {
        assert services == [] && ds != [];
        return Fatal;
      }
      var service := found.value;
      assert service == ServiceAt(services, ds[v]);
      ServicesSeen(services, ds, v, v);
      assert service !in used <==> FirstServiceDraw(services, ds, v);
      if service !in used {
        used := used + {service};
        if !ds[v].insertOk {
          assert FirstServiceDraw(services, ds, v) && !ds[v].insertOk;
          return InsertFailed;
        }
        rows := rows + [ServiceOrder(service, order)];
      }
      v := v + 1;
    }
    assert ds != [] ==> services != [] && rows == FirstServices(services, order, ds, |ds|);
    return Inserted(rows);
  }

  /** Service rows belong to the order, name existing services and never repeat a service. */
  lemma {:induction false} FirstServicesSound(services: seq<int>, order: int, ds: seq<ServiceDraw>, n: nat)
    requires services != [] && n <= |ds|
    ensures |FirstServices(services, order, ds, n)| <= n
    ensures forall so :: so in FirstServices(services, order, ds, n) ==> so.order == order && so.service in services
    ensures forall i, j :: 0 <= i < j < |FirstServices(services, order, ds, n)| ==>
              FirstServices(services, order, ds, n)[i].service != FirstServices(services, order, ds, n)[j].service
    ensures forall so :: so in FirstServices(services, order, ds, n) ==> exists k :: 0 <= k < n && so.service == ServiceAt(services, ds[k])
  {
    if n > 0 {
      FirstServicesSound(services, order, ds, n - 1);
      if FirstServiceDraw(services, ds, n - 1) {
        var prev := FirstServices(services, order, ds, n - 1);
        var s := ServiceAt(services, ds[n - 1]);
        forall i | 0 <= i < |prev|
          ensures prev[i].service != s
        {
          assert prev[i] in prev;
        }
      }
    }
  }

  /** Every service drawn for an order is attached to it once: the loop drops repeats only. */
  lemma {:induction false} FirstServicesComplete(services: seq<int>, order: int, ds: seq<ServiceDraw>, n: nat, k: nat)
    requires services != [] && k < n <= |ds|
    ensures ServiceOrder(ServiceAt(services, ds[k]), order) in FirstServices(services, order, ds, n)
  {
    if k < n - 1 {
      FirstServicesComplete(services, order, ds, n - 1, k);
    } else if !FirstServiceDraw(services, ds, k) {
      var j :| 0 <= j < k && ServiceAt(services, ds[j]) == ServiceAt(services, ds[k]);
      FirstServicesComplete(services, order, ds, n - 1, j);
    }
  }

  // ---------------------------------------------------------------------------------------
  // CreateOrders

  /** What the open transaction has inserted so far and the next serial value. */
  datatype Batch = Batch(orders: seq<Order>, partOrders: seq<PartOrder>, serviceOrders: seq<ServiceOrder>, nextId: int)

  datatype FailReason = BeginFailed | OrderInsertFailed | PartInsertFailed | ServiceInsertFailed | CommitFailed

  /** An error return leaves the transaction uncommitted; `Aborted` is `log.Fatal`. */
  datatype BatchResult = Committed | Failed(reason: FailReason) | Aborted

  datatype Progress = Running(batch: Batch) | Stopped(result: BatchResult)

  function EmptyBatch(t: Tables): Batch
  {
    Batch([], [], [], t.nextOrderId)
  }

  /** The tables once the transaction's rows are committed. */
  function Commit(t: Tables, b: Batch): Tables
  {
    t.(orders := t.orders + b.orders, partOrders := t.partOrders + b.partOrders,
       serviceOrders := t.serviceOrders + b.serviceOrders, nextOrderId := b.nextId)
  }

  /** The order row an attempt inserts, with the id the serial column hands out. */
  function NewOrder(b: Batch, crew: Crew, a: AttemptDraw): Order
  {
    Order(b.nextId, crew.customer, crew.center, crew.manager, crew.master, StatusOf(a.status))
  }

  /** One pass of the attempt loop. The selection queries read the committed tables, which the
      transaction does not change. */
  function AttemptStep(t: Tables, a: AttemptDraw, b: Batch): Progress
  {
    match SelectCrew(t, a)
    case Halted => Stopped(Aborted)
    case Skipped => Running(b)
    case Chosen(crew) =>
      if !a.orderInsertOk then Stopped(Failed(OrderInsertFailed))
      else
        var o := NewOrder(b, crew, a);
        match PartRows(t.parts, o.id, a.parts)
        case Fatal => Stopped(Aborted)
        case InsertFailed => Stopped(Failed(PartInsertFailed))
        case Inserted(prs) =>
          match ServiceRows(t.services, o.id, a.services)
          case Fatal => Stopped(Aborted)
          case InsertFailed => Stopped(Failed(ServiceInsertFailed))
          case Inserted(srs) => Running(Batch(b.orders + [o], b.partOrders + prs, b.serviceOrders + srs, b.nextId + 1))
  }

  function Attempts(t: Tables, ds: seq<AttemptDraw>, b: Batch): Progress
  {
    if ds == [] then Running(b)
    else
      match AttemptStep(t, ds[0], b)
      case Stopped(r) => Stopped(r)
      case Running(next) => Attempts(t, ds[1..], next)
  }

  /** `CreateOrders` from the tables before to the result and the tables after. */
  function OrdersOutcome(t: Tables, beginOk: bool, draws: seq<AttemptDraw>, commitOk: bool): (BatchResult, Tables)
  {
    if !beginOk then (Failed(BeginFailed), t)
    else
      match Attempts(t, draws, EmptyBatch(t))
      case Stopped(r) => (r, t)
      case Running(b) => if commitOk then (Committed, Commit(t, b)) else (Failed(CommitFailed), t)
  }

  /** One pass of the attempt loop: choose the crew, insert the order, then its spare parts
      and its services; a skip leaves the transaction as it was. */
  method RunAttempt(t: Tables, a: AttemptDraw, tx: Batch) returns (p: Progress)
    ensures p == AttemptStep(t, a, tx)
  {
    match SelectCrew(t, a)
    case Halted =>
      return Stopped(Aborted);
    case Skipped =>
      return Running(tx);
    case Chosen(crew) =>
      if !a.orderInsertOk {
        return Stopped(Failed(OrderInsertFailed));
      }
      var order := NewOrder(tx, crew, a);
      var prs := AttachParts(t.parts, order.id, a.parts);
      if prs.Fatal? {
        return Stopped(Aborted);
      } else if prs.InsertFailed? {
        return Stopped(Failed(PartInsertFailed));
      }
      var srs := AttachServices(t.services, order.id, a.services);
      if srs.Fatal? {
        return Stopped(Aborted);
      } else if srs.InsertFailed? {
        return Stopped(Failed(ServiceInsertFailed));
      }
      return Running(Batch(tx.orders + [order], tx.partOrders + prs.rows, tx.serviceOrders + srs.rows, tx.nextId + 1));
  }

  /** The attempt loop inside one transaction, committed once after the last attempt. */
  method CreateOrders(db: Database, tries: int, partsPerOrder: int, servicesPerOrder: int,
                      beginOk: bool, draws: seq<AttemptDraw>, commitOk: bool) returns (r: BatchResult)
    requires |draws| == Count(tries)
    requires forall a :: a in draws ==> |a.parts| == Count(partsPerOrder) && |a.services| == Count(servicesPerOrder)
    modifies db`orders, db`partOrders, db`serviceOrders, db`nextOrderId
    ensures (r, db.Snapshot()) == OrdersOutcome(old(db.Snapshot()), beginOk, draws, commitOk)
  {
    if !beginOk {
      return Failed(BeginFailed);
    }
    var t := db.Snapshot();
    var tx := EmptyBatch(t);
    var i := 0;
    while i < tries
      invariant 0 <= i <= |draws|
      invariant Attempts(t, draws, EmptyBatch(t)) == Attempts(t, draws[i..], tx)
      invariant db.Snapshot() == t
    {
      assert draws[i..][0] == draws[i] && draws[i..][1..] == draws[i + 1..];
      var p := RunAttempt(t, draws[i], tx);
      if p.Stopped? {
        return p.result;
      }
      tx := p.batch;
      i := i + 1;
    }
    assert draws[i..] == [];
    if !commitOk {
      return Failed(CommitFailed);
    }
    db.orders := db.orders + tx.orders;
    db.partOrders := db.partOrders + tx.partOrders;
    db.serviceOrders := db.serviceOrders + tx.serviceOrders;
    db.nextOrderId := tx.nextId;
    return Committed;
  }

  // ---------------------------------------------------------------------------------------
  // Properties of CreateOrders

  /** An order as the attempt builds it: a qualified center, a master and a manager working
      there in those roles, an existing customer. */
  predicate Staffed(t: Tables, o: Order)
  {
    o.center in QualifiedCenters(t.staff)
    && Assignment(o.master, o.center, Master) in t.staff && Assignment(o.manager, o.center, Manager) in t.staff
    && o.customer in t.customers
  }

  /** A batch grown from `b`: rows only appended, at most `n` orders more, each staffed, and one
      serial value used per order. */
  predicate GrownBy(t: Tables, b: Batch, b2: Batch, n: nat)
  {
    |b.orders| <= |b2.orders| <= |b.orders| + n && b2.orders[..|b.orders|] == b.orders
    && b2.nextId == b.nextId + (|b2.orders| - |b.orders|)
    && (forall k :: |b.orders| <= k < |b2.orders| ==> Staffed(t, b2.orders[k]))
    && |b2.partOrders| >= |b.partOrders| && b2.partOrders[..|b.partOrders|] == b.partOrders
    && |b2.serviceOrders| >= |b.serviceOrders| && b2.serviceOrders[..|b.serviceOrders|] == b.serviceOrders
  }

  lemma AppendOrderKeepsOrders(t: Tables, o: Order)
    requires OrdersConsistent(t) && o.id == t.nextOrderId
    requires Assignment(o.master, o.center, Master) in t.staff && Assignment(o.manager, o.center, Manager) in t.staff
    requires o.customer in t.customers
    ensures OrdersConsistent(t.(orders := t.orders + [o], nextOrderId := t.nextOrderId + 1))
  {
    var os := t.orders + [o];
    forall i, j | 0 <= i < j < |os|
      ensures os[i].id != os[j].id
    {
      if j == |t.orders| {
        assert os[i] in t.orders;
      }
    }
  }

  lemma {:induction false} AppendPartsKeepsParts(t: Tables, o: Order, prs: seq<PartOrder>)
    requires PartOrdersConsistent(t) && o.id == t.nextOrderId
    requires forall x :: x in t.orders ==> x.id < t.nextOrderId
    requires forall po :: po in prs ==> po.order == o.id && 1 <= po.quantity <= 5 && exists p :: p in t.parts && p.id == po.part && po.quantity <= p.stock
    requires forall i, j :: 0 <= i < j < |prs| ==> prs[i].part != prs[j].part
    ensures PartOrdersConsistent(t.(orders := t.orders + [o], partOrders := t.partOrders + prs))
  {
    var os := t.orders + [o];
    var ps := t.partOrders + prs;
    assert o in os;
    forall po | po in ps
      ensures OrderExists(os, po.order)
    {
      if po in t.partOrders {
        var x :| x in t.orders && x.id == po.order;
        assert x in os;
      }
    }
    forall i, j | 0 <= i < j < |ps|
      ensures ps[i].part != ps[j].part || ps[i].order != ps[j].order
    {
      if i < |t.partOrders| <= j {
        assert ps[i] in t.partOrders && ps[j] in prs;
        var x :| x in t.orders && x.id == ps[i].order;
      }
    }
  }

  lemma {:induction false} AppendServicesKeepsServices(t: Tables, o: Order, srs: seq<ServiceOrder>)
    requires ServiceOrdersConsistent(t) && o.id == t.nextOrderId
    requires forall x :: x in t.orders ==> x.id < t.nextOrderId
    requires forall so :: so in srs ==> so.order == o.id && so.service in t.services
    requires forall i, j :: 0 <= i < j < |srs| ==> srs[i].service != srs[j].service
    ensures ServiceOrdersConsistent(t.(orders := t.orders + [o], serviceOrders := t.serviceOrders + srs))
  {
    var os := t.orders + [o];
    var ss := t.serviceOrders + srs;
    assert o in os;
    forall so | so in ss
      ensures OrderExists(os, so.order)
    {
      if so in t.serviceOrders {
        var x :| x in t.orders && x.id == so.order;
        assert x in os;
      }
    }
    forall i, j | 0 <= i < j < |ss|
      ensures ss[i] != ss[j]
    {
      if i < |t.serviceOrders| <= j {
        assert ss[i] in t.serviceOrders && ss[j] in srs;
        var x :| x in t.orders && x.id == ss[i].order;
      }
    }
  }

  lemma AppendOrderKeepsReceipts(t: Tables, o: Order)
    requires ReceiptsConsistent(t)
    ensures ReceiptsConsistent(t.(orders := t.orders + [o]))
  {
    forall rc | rc in t.receipts
      ensures exists x :: x in t.orders + [o] && x.id == rc.order && x.status == Completed
    {
      var x :| x in t.orders && x.id == rc.order && x.status == Completed;
      assert x in t.orders + [o];
    }
  }

  /** Appending one order with its attachment rows keeps the database consistent. */
  lemma AppendKeepsConsistent(c: Tables, o: Order, prs: seq<PartOrder>, srs: seq<ServiceOrder>)
    requires Consistent(c) && o.id == c.nextOrderId
    requires Assignment(o.master, o.center, Master) in c.staff && Assignment(o.manager, o.center, Manager) in c.staff
    requires o.customer in c.customers
    requires forall po :: po in prs ==> po.order == o.id && 1 <= po.quantity <= 5 && exists p :: p in c.parts && p.id == po.part && po.quantity <= p.stock
    requires forall i, j :: 0 <= i < j < |prs| ==> prs[i].part != prs[j].part
    requires forall so :: so in srs ==> so.order == o.id && so.service in c.services
    requires forall i, j :: 0 <= i < j < |srs| ==> srs[i].service != srs[j].service
    ensures Consistent(c.(orders := c.orders + [o], partOrders := c.partOrders + prs,
                          serviceOrders := c.serviceOrders + srs, nextOrderId := c.nextOrderId + 1))
  {
    AppendOrderKeepsOrders(c, o);
    AppendPartsKeepsParts(c, o, prs);
    AppendServicesKeepsServices(c, o, srs);
    AppendOrderKeepsReceipts(c, o);
  }

  /** One attempt either changes nothing (a skip) or appends one staffed order with its
      attachment rows. */
  lemma StepGrows(t: Tables, a: AttemptDraw, b: Batch)
    requires AttemptStep(t, a, b).Running?
    ensures GrownBy(t, b, AttemptStep(t, a, b).batch, 1)
  {
    if SelectCrew(t, a).Chosen? {
      var b2 := AttemptStep(t, a, b).batch;
      assert b2.orders[..|b.orders|] == b.orders;
      assert b2.partOrders[..|b.partOrders|] == b.partOrders;
      assert b2.serviceOrders[..|b.serviceOrders|] == b.serviceOrders;
      QualifiedMeansBothRoles(t.staff, SelectCrew(t, a).crew.center);
    }
  }

  /** Each attempt keeps the committed view of the transaction consistent. */
  lemma StepKeepsConsistent(t: Tables, a: AttemptDraw, b: Batch)
    requires Consistent(Commit(t, b)) && AttemptStep(t, a, b).Running?
    ensures GrownBy(t, b, AttemptStep(t, a, b).batch, 1)
    ensures Consistent(Commit(t, AttemptStep(t, a, b).batch))
  {
    StepGrows(t, a, b);
    if SelectCrew(t, a).Chosen? {
      var o := NewOrder(b, SelectCrew(t, a).crew, a);
      var prs := PartRows(t.parts, o.id, a.parts).rows;
      var srs := ServiceRows(t.services, o.id, a.services).rows;
      var b2 := Batch(b.orders + [o], b.partOrders + prs, b.serviceOrders + srs, b.nextId + 1);
      assert AttemptStep(t, a, b) == Running(b2);
      var c := Commit(t, b);
      assert c.staff == t.staff && c.customers == t.customers && c.parts == t.parts && c.services == t.services;
      assert o.id == c.nextOrderId;
      AttachmentsOfOneOrder(t, a, o.id);
      AppendKeepsConsistent(c, o, prs, srs);
      assert t.orders + b2.orders == c.orders + [o];
      assert t.partOrders + b2.partOrders == c.partOrders + prs;
      assert t.serviceOrders + b2.serviceOrders == c.serviceOrders + srs;
      assert Commit(t, b2) == c.(orders := c.orders + [o], partOrders := c.partOrders + prs,
                                 serviceOrders := c.serviceOrders + srs, nextOrderId := c.nextOrderId + 1);
    }
  }

  lemma {:induction false} AttemptsKeepConsistent(t: Tables, ds: seq<AttemptDraw>, b: Batch)
    requires Consistent(Commit(t, b)) && Attempts(t, ds, b).Running?
    ensures GrownBy(t, b, Attempts(t, ds, b).batch, |ds|)
    ensures Consistent(Commit(t, Attempts(t, ds, b).batch))
  {
    if ds != [] {
      StepKeepsConsistent(t, ds[0], b);
      var b1 := AttemptStep(t, ds[0], b).batch;
      AttemptsKeepConsistent(t, ds[1..], b1);
      assert Attempts(t, ds, b) == Attempts(t, ds[1..], b1);
      GrownByCompose(t, b, b1, Attempts(t, ds[1..], b1).batch, |ds| - 1);
    }
  }

  /** One attempt's growth followed by `n` more is growth by `n + 1`. */
  lemma GrownByCompose(t: Tables, b: Batch, b1: Batch, b2: Batch, n: nat)
    requires GrownBy(t, b, b1, 1) && GrownBy(t, b1, b2, n)
    ensures GrownBy(t, b, b2, n + 1)
  {
    assert b2.orders[..|b1.orders|][..|b.orders|] == b2.orders[..|b.orders|];
    assert b2.partOrders[..|b1.partOrders|][..|b.partOrders|] == b2.partOrders[..|b.partOrders|];
    assert b2.serviceOrders[..|b1.serviceOrders|][..|b.serviceOrders|] == b2.serviceOrders[..|b.serviceOrders|];
  }

  /** `CreateOrders` keeps the database consistent, writes nothing unless it commits, and
      when it commits it appends at most `tries` orders, each staffed from a qualified center,
      touching no other table (in particular no stock quantity). */
  lemma CreateOrdersKeepsConsistent(t: Tables, beginOk: bool, draws: seq<AttemptDraw>, commitOk: bool)
    requires Consistent(t)
    ensures Consistent(OrdersOutcome(t, beginOk, draws, commitOk).1)
    ensures OrdersOutcome(t, beginOk, draws, commitOk).0 != Committed ==> OrdersOutcome(t, beginOk, draws, commitOk).1 == t
    ensures OrdersOutcome(t, beginOk, draws, commitOk).0 == Committed ==>
              var t2 := OrdersOutcome(t, beginOk, draws, commitOk).1;
              |t.orders| <= |t2.orders| <= |t.orders| + |draws| && t2.orders[..|t.orders|] == t.orders
              && (forall k :: |t.orders| <= k < |t2.orders| ==> Staffed(t, t2.orders[k]))
              && t2.staff == t.staff && t2.customers == t.customers && t2.parts == t.parts
              && t2.services == t.services && t2.receipts == t.receipts
  {
    if beginOk {
      var b0 := EmptyBatch(t);
      assert Commit(t, b0) == t;
      if Attempts(t, draws, b0).Running? {
        AttemptsKeepConsistent(t, draws, b0);
        var b := Attempts(t, draws, b0).batch;
        var t2 := Commit(t, b);
        assert t2.orders[..|t.orders|] == t.orders;
        forall k | |t.orders| <= k < |t2.orders|
          ensures Staffed(t, t2.orders[k])
        {
          assert t2.orders[k] == b.orders[k - |t.orders|];
        }
      }
    }
  }

  /** Within one order no spare part and no service is attached twice, and every spare-part
      row's quantity lies in 1..5 and is covered by the part's stock. */
  lemma AttachmentsOfOneOrder(t: Tables, a: AttemptDraw, order: int)
    requires PartRows(t.parts, order, a.parts).Inserted? && ServiceRows(t.services, order, a.services).Inserted?
    ensures var prs := PartRows(t.parts, order, a.parts).rows;
            |prs| <= |a.parts|
            && (forall i, j :: 0 <= i < j < |prs| ==> prs[i].part != prs[j].part)
            && (forall po :: po in prs ==>
                  (po.order == order && 1 <= po.quantity <= 5 && exists p :: p in t.parts && p.id == po.part && po.quantity <= p.stock))
    ensures var srs := ServiceRows(t.services, order, a.services).rows;
            |srs| <= |a.services|
            && (forall i, j :: 0 <= i < j < |srs| ==> srs[i].service != srs[j].service)
            && (forall so :: so in srs ==> so.order == order && so.service in t.services)
  {
    if a.parts != [] {
      GrantedPartsSound(t.parts, order, a.parts, |a.parts|);
    }
    if a.services != [] {
      FirstServicesSound(t.services, order, a.services, |a.services|);
    }
  }

  /** The attempt loop over two runs of draws is the loop over the first, then, if it is still
      running, the loop over the second from the batch the first left. */
  lemma {:induction false} AttemptsCompose(t: Tables, ds1: seq<AttemptDraw>, ds2: seq<AttemptDraw>, b: Batch)
    ensures Attempts(t, ds1 + ds2, b)
            == match Attempts(t, ds1, b)
               case Stopped(r) => Stopped(r)
               case Running(b1) => Attempts(t, ds2, b1)
    decreases |ds1|
  {
    if ds1 != [] {
      assert (ds1 + ds2)[0] == ds1[0] && (ds1 + ds2)[1..] == ds1[1..] + ds2;
      match AttemptStep(t, ds1[0], b)
      case Stopped(_) =>
      case Running(next) => AttemptsCompose(t, ds1[1..], ds2, next);
    } else {
      assert ds1 + ds2 == ds2;
    }
  }

  /** An attempt that fails or aborts, after earlier attempts that kept the run going, ends
      the whole run with its own result: no later attempt runs and nothing is committed. */
  lemma FailedInsertStopsRun(t: Tables, ds: seq<AttemptDraw>, b: Batch, k: nat, bk: Batch)
    requires k < |ds| && Attempts(t, ds[..k], b) == Running(bk)
    requires AttemptStep(t, ds[k], bk).Stopped?
    ensures Attempts(t, ds, b) == AttemptStep(t, ds[k], bk)
  {
    var pre, rest := ds[..k], ds[k..];
    assert ds == pre + rest;
    AttemptsResume(t, pre, rest, b, bk);
    FirstAttemptStops(t, rest, ds[k], bk);
  }

  lemma AttemptsResume(t: Tables, ds1: seq<AttemptDraw>, ds2: seq<AttemptDraw>, b: Batch, b1: Batch)
    requires Attempts(t, ds1, b) == Running(b1)
    ensures Attempts(t, ds1 + ds2, b) == Attempts(t, ds2, b1)
  {
    AttemptsCompose(t, ds1, ds2, b);
  }

  lemma FirstAttemptStops(t: Tables, ds: seq<AttemptDraw>, a: AttemptDraw, b: Batch)
    requires ds != [] && ds[0] == a && AttemptStep(t, a, b).Stopped?
    ensures Attempts(t, ds, b) == AttemptStep(t, a, b)
  {
  }

  // ---------------------------------------------------------------------------------------
  // CreateReceipts

  /** The orders the candidate query selects: completed orders joined with their customer and
      without a receipt, listed in table order. The query has no ORDER BY, so the database may
      return them in any arrangement (`Arranges`). */
  function Candidates(orders: seq<Order>, customers: seq<int>, receipts: seq<Receipt>): (ids: seq<int>)
    ensures forall id :: id in ids ==>
              !HasReceipt(receipts, id) && exists o :: o in orders && o.id == id && o.status == Completed && o.customer in customers
  {
    if orders == [] then []
    else
      var o := orders[|orders| - 1];
      Candidates(orders[..|orders| - 1], customers, receipts)
      + (if o.status == Completed && o.customer in customers && !HasReceipt(receipts, o.id) then [o.id] else [])
  }

  lemma {:induction false} CandidatesComplete(orders: seq<Order>, customers: seq<int>, receipts: seq<Receipt>, o: Order)
    requires o in orders && o.status == Completed && o.customer in customers && !HasReceipt(receipts, o.id)
    ensures o.id in Candidates(orders, customers, receipts)
  {
    var init := orders[..|orders| - 1];
    if orders[|orders| - 1] != o {
      assert o in init;
      CandidatesComplete(init, customers, receipts, o);
    }
  }

  /** With unique order ids no candidate appears twice. */
  lemma {:induction false} CandidatesDistinct(orders: seq<Order>, customers: seq<int>, receipts: seq<Receipt>)
    requires UniqueOrderIds(orders)
    ensures Distinct(Candidates(orders, customers, receipts))
  {
    if orders != [] {
      var init := orders[..|orders| - 1];
      var o := orders[|orders| - 1];
      CandidatesDistinct(init, customers, receipts);
      var cs := Candidates(init, customers, receipts);
      forall id | id in cs
        ensures id != o.id
      {
        var x :| x in init && x.id == id && x.status == Completed && x.customer in customers;
        var i :| 0 <= i < |init| && init[i] == x;
        assert orders[i] == x;
      }
      var full := Candidates(orders, customers, receipts);
      assert full == cs + (if o.status == Completed && o.customer in customers && !HasReceipt(receipts, o.id) then [o.id] else []);
      forall i, j | 0 <= i < j < |full|
        ensures full[i] != full[j]
      {
        if j == |cs| {
          assert full[j] == o.id;
          assert full[i] == cs[i] && cs[i] in cs;
        } else {
          assert full[i] == cs[i] && full[j] == cs[j];
        }
      }
    }
  }

  predicate Distinct<T(==)>(s: seq<T>)
  {
    forall i, j :: 0 <= i < j < |s| ==> s[i] != s[j]
  }

  /** `rows` is the candidate set in some order the database chose. */
  predicate Arranges(rows: seq<int>, t: Tables)
  {
    multiset(rows) == multiset(Candidates(t.orders, t.customers, t.receipts))
  }

  /** A sequence is distinct exactly when no element occurs twice in its multiset. */
  lemma {:induction false} DistinctCounts<T>(s: seq<T>)
    ensures Distinct(s) <==> forall x :: multiset(s)[x] <= 1
  {
    if s != [] {
      var init, last := s[..|s| - 1], s[|s| - 1];
      DistinctCounts(init);
      assert s == init + [last];
      assert multiset(s) == multiset(init) + multiset{last};
      if Distinct(s) {
        assert Distinct(init) by {
          forall i, j | 0 <= i < j < |init| ensures init[i] != init[j] {
            assert init[i] == s[i] && init[j] == s[j];
          }
        }
        assert last !in init by {
          forall i | 0 <= i < |init| ensures init[i] != last {
            assert init[i] == s[i];
          }
        }
      }
      if Distinct(init) && last !in init {
        forall i, j | 0 <= i < j < |s| ensures s[i] != s[j] {
          if j == |s| - 1 {
            assert s[i] == init[i] && init[i] in init;
          } else {
            assert s[i] == init[i] && s[j] == init[j];
          }
        }
      }
      assert Distinct(s) <==> Distinct(init) && last !in init;
      if forall x :: multiset(s)[x] <= 1 {
        forall x ensures multiset(init)[x] <= 1 {
          assert multiset(init)[x] <= multiset(s)[x];
        }
        assert multiset(s)[last] == multiset(init)[last] + 1;
        assert multiset(init)[last] == 0;
      } else {
        var x :| multiset(s)[x] > 1;
        if x != last {
          assert multiset(init)[x] > 1;
        } else {
          assert multiset(init)[last] > 0 && last in init;
        }
      }
    }
  }

  /** An arrangement of a distinct sequence is distinct. */
  lemma ArrangementDistinct<T>(s: seq<T>, r: seq<T>)
    requires Distinct(s) && multiset(r) == multiset(s)
    ensures Distinct(r)
  {
    DistinctCounts(s);
    DistinctCounts(r);
  }

  datatype ReceiptsResult = ReceiptsDone | QueryFailed | ReceiptInsertFailed(order: int)

  /** The insert loop from candidate `k` on: a candidate whose receipt is found on re-check is
      skipped; the insert at position `failAt` fails and ends the loop. Each insert is its own
      statement on the pool, so receipts inserted before a failure stay. */
  function Finalize(receipts: seq<Receipt>, cands: seq<int>, failAt: O.Option<nat>, k: nat): (ReceiptsResult, seq<Receipt>)
    decreases |cands|
  {
    if cands == [] then (ReceiptsDone, receipts)
    else if HasReceipt(receipts, cands[0]) then Finalize(receipts, cands[1..], failAt, k + 1)
    else if failAt == O.Some(k) then (ReceiptInsertFailed(cands[0]), receipts)
    else Finalize(receipts + [Receipt(cands[0])], cands[1..], failAt, k + 1)
  }

  /** `CreateReceipts` from the tables before to the result and the tables after, with `rows`
      the candidate rows in the order the query returned them (None when it failed). */
  function ReceiptsOutcome(t: Tables, rows: O.Option<seq<int>>, failAt: O.Option<nat>): (ReceiptsResult, Tables)
  {
    match rows
    case None => (QueryFailed, t)
    case Some(cs) =>
      var (r, receipts) := Finalize(t.receipts, cs, failAt, 0);
      (r, t.(receipts := receipts))
  }

  /** Collects the candidate rows, then re-checks and inserts a receipt for each in turn. */
  method CreateReceipts(db: Database, rows: O.Option<seq<int>>, failAt: O.Option<nat>) returns (r: ReceiptsResult)
    requires rows.Some? ==> Arranges(rows.value, db.Snapshot())
    modifies db`receipts
    ensures (r, db.Snapshot()) == ReceiptsOutcome(old(db.Snapshot()), rows, failAt)
  {
    if rows.None? {
      return QueryFailed;
    }
    var dtos := rows.value;
    var i := 0;
    while i < |dtos|
      invariant 0 <= i <= |dtos|
      invariant Finalize(old(db.receipts), dtos, failAt, 0) == Finalize(db.receipts, dtos[i..], failAt, i)
      invariant db.Snapshot() == old(db.Snapshot()).(receipts := db.receipts)
    {
      assert dtos[i..][0] == dtos[i] && dtos[i..][1..] == dtos[i + 1..];
      if Receipt(dtos[i]) !in db.receipts {
        if failAt == O.Some(i) {
          return ReceiptInsertFailed(dtos[i]);
        }
        db.receipts := db.receipts + [Receipt(dtos[i])];
      }
      i := i + 1;
    }
    assert dtos[i..] == [];
    return ReceiptsDone;
  }

  function ReceiptsFor(ids: seq<int>): (rs: seq<Receipt>)
    ensures |rs| == |ids| && forall i :: 0 <= i < |ids| ==> rs[i] == Receipt(ids[i])
  {
    seq(|ids|, i requires 0 <= i < |ids| => Receipt(ids[i]))
  }

  /** The loop only ever adds receipts for candidates that had none, never two for one order,
      and when it completes every candidate has a receipt. */
  lemma {:induction false} FinalizeAdds(receipts: seq<Receipt>, cands: seq<int>, failAt: O.Option<nat>, k: nat)
    ensures var (r, rs) := Finalize(receipts, cands, failAt, k);
            |rs| >= |receipts| && rs[..|receipts|] == receipts
            && (forall i :: |receipts| <= i < |rs| ==> rs[i].order in cands && !HasReceipt(receipts, rs[i].order))
            && (forall i, j :: |receipts| <= i < j < |rs| ==> rs[i] != rs[j])
            && (r == ReceiptsDone ==> forall id :: id in cands ==> HasReceipt(rs, id))
    decreases |cands|
  {
    if cands != [] {
      var c := cands[0];
      if HasReceipt(receipts, c) {
        FinalizeAdds(receipts, cands[1..], failAt, k + 1);
      } else if failAt != O.Some(k) {
        var grown := receipts + [Receipt(c)];
        FinalizeAdds(grown, cands[1..], failAt, k + 1);
        var rs := Finalize(grown, cands[1..], failAt, k + 1).1;
        assert rs[..|receipts|] == rs[..|grown|][..|receipts|];
        assert rs[|receipts|] == Receipt(c);
        forall i | |receipts| <= i < |rs|
          ensures rs[i].order in cands && !HasReceipt(receipts, rs[i].order)
        {
          if i > |receipts| {
            assert !HasReceipt(grown, rs[i].order);
            assert rs[i].order != c;
          }
        }
      }
    }
  }

  /** Receipts are inserted only for completed orders that had none when the query ran; no
      order gets two; a completed run leaves every candidate with a receipt; nothing else
      changes. */
  lemma CreateReceiptsEffect(t: Tables, rows: O.Option<seq<int>>, failAt: O.Option<nat>)
    requires rows.Some? ==> Arranges(rows.value, t)
    ensures var t2 := ReceiptsOutcome(t, rows, failAt).1;
            t2 == t.(receipts := t2.receipts) && |t2.receipts| >= |t.receipts| && t2.receipts[..|t.receipts|] == t.receipts
            && (forall i :: |t.receipts| <= i < |t2.receipts| ==>
                  !HasReceipt(t.receipts, t2.receipts[i].order)
                  && exists o :: o in t.orders && o.id == t2.receipts[i].order && o.status == Completed)
            && (forall i, j :: |t.receipts| <= i < j < |t2.receipts| ==> t2.receipts[i] != t2.receipts[j])
    ensures ReceiptsOutcome(t, rows, failAt).0 == ReceiptsDone ==>
              forall o :: o in t.orders && o.status == Completed && o.customer in t.customers ==>
                HasReceipt(ReceiptsOutcome(t, rows, failAt).1.receipts, o.id)
  {
    if rows.Some? {
      var cs := rows.value;
      var cands := Candidates(t.orders, t.customers, t.receipts);
      FinalizeAdds(t.receipts, cs, failAt, 0);
      var rs := Finalize(t.receipts, cs, failAt, 0).1;
      forall id | id in cs
        ensures id in cands
      {
        assert id in multiset(cs);
      }
      forall o | o in t.orders && o.status == Completed && o.customer in t.customers && !HasReceipt(t.receipts, o.id)
        ensures o.id in cs
      {
        CandidatesComplete(t.orders, t.customers, t.receipts, o);
        assert o.id in multiset(cands);
      }
      forall o | o in t.orders && HasReceipt(t.receipts, o.id)
        ensures HasReceipt(rs, o.id)
      {
        assert rs[..|t.receipts|] == t.receipts;
        var i :| 0 <= i < |t.receipts| && t.receipts[i] == Receipt(o.id);
        assert rs[i] == Receipt(o.id);
      }
    }
  }

  /** `CreateReceipts` keeps the database consistent, whether or not an insert fails. */
  lemma CreateReceiptsKeepsConsistent(t: Tables, rows: O.Option<seq<int>>, failAt: O.Option<nat>)
    requires Consistent(t) && (rows.Some? ==> Arranges(rows.value, t))
    ensures Consistent(ReceiptsOutcome(t, rows, failAt).1)
  {
    CreateReceiptsEffect(t, rows, failAt);
    var t2 := ReceiptsOutcome(t, rows, failAt).1;
    forall i, j | 0 <= i < j < |t2.receipts|
      ensures t2.receipts[i] != t2.receipts[j]
    {
      if i < |t.receipts| <= j {
        assert t2.receipts[i] == t.receipts[i];
        assert t.receipts[i] in t.receipts;
      } else if j < |t.receipts| {
        assert t2.receipts[i] == t.receipts[i] && t2.receipts[j] == t.receipts[j];
      }
    }
    forall rc | rc in t2.receipts
      ensures exists o :: o in t.orders && o.id == rc.order && o.status == Completed
    {
      var i :| 0 <= i < |t2.receipts| && t2.receipts[i] == rc;
      if i < |t.receipts| {
        assert rc == t.receipts[i];
        assert rc in t.receipts;
      }
    }
  }

  /** Candidates that are distinct and have no receipt still have none after the first one's
      receipt is added. */
  lemma FreshAfterFirst(receipts: seq<Receipt>, cands: seq<int>)
    requires cands != [] && Distinct(cands)
    requires forall id :: id in cands ==> !HasReceipt(receipts, id)
    ensures forall id :: id in cands[1..] ==> !HasReceipt(receipts + [Receipt(cands[0])], id)
  {
    forall id | id in cands[1..]
      ensures !HasReceipt(receipts + [Receipt(cands[0])], id)
    {
      var i :| 0 <= i < |cands[1..]| && cands[1..][i] == id;
      assert cands[i + 1] == id && id in cands;
      assert cands[i + 1] != cands[0];
    }
  }

  /** Since order ids are unique the candidates are distinct, so the re-check never skips:
      with the insert at `failAt` failing, the receipts added are exactly those of the
      candidates before it. */
  lemma {:induction false} FinalizeExactFailing(receipts: seq<Receipt>, cands: seq<int>, failAt: nat, k: nat)
    requires Distinct(cands)
    requires forall id :: id in cands ==> !HasReceipt(receipts, id)
    requires k <= failAt < k + |cands|
    ensures Finalize(receipts, cands, O.Some(failAt), k)
              == (ReceiptInsertFailed(cands[failAt - k]), receipts + ReceiptsFor(cands[..failAt - k]))
    decreases |cands|
  {
    var c := cands[0];
    assert c in cands;
    if failAt == k {
      assert receipts + ReceiptsFor(cands[..0]) == receipts;
    } else {
      var grown := receipts + [Receipt(c)];
      FreshAfterFirst(receipts, cands);
      FinalizeExactFailing(grown, cands[1..], failAt, k + 1);
      assert ReceiptsFor(cands[..failAt - k]) == [Receipt(c)] + ReceiptsFor(cands[1..][..failAt - k - 1]);
      assert receipts + ReceiptsFor(cands[..failAt - k]) == grown + ReceiptsFor(cands[1..][..failAt - k - 1]);
      assert cands[failAt - k] == cands[1..][failAt - (k + 1)];
    }
  }

  /** With no failing insert among the candidates every candidate gets exactly one receipt,
      in candidate order. */
  lemma {:induction false} FinalizeExactDone(receipts: seq<Receipt>, cands: seq<int>, failAt: O.Option<nat>, k: nat)
    requires Distinct(cands)
    requires forall id :: id in cands ==> !HasReceipt(receipts, id)
    requires !(failAt.Some? && k <= failAt.value < k + |cands|)
    ensures Finalize(receipts, cands, failAt, k) == (ReceiptsDone, receipts + ReceiptsFor(cands))
    decreases |cands|
  {
    if cands != [] {
      var c := cands[0];
      assert c in cands;
      var grown := receipts + [Receipt(c)];
      assert !HasReceipt(receipts, c) && failAt != O.Some(k);
      assert Finalize(receipts, cands, failAt, k) == Finalize(grown, cands[1..], failAt, k + 1);
      FreshAfterFirst(receipts, cands);
      assert Distinct(cands[1..]) by {
        forall i, j | 0 <= i < j < |cands[1..]| ensures cands[1..][i] != cands[1..][j] {
          assert cands[1..][i] == cands[i + 1] && cands[1..][j] == cands[j + 1];
        }
      }
      FinalizeExactDone(grown, cands[1..], failAt, k + 1);
      ReceiptsForCons(receipts, cands);
    } else {
      assert receipts + ReceiptsFor(cands) == receipts;
    }
  }

  /** With unique order ids the re-check never fires: a run inserts one receipt per candidate
      row, in the order the query returned them, up to the failing insert if there is one. */
  lemma CreateReceiptsExact(t: Tables, cs: seq<int>, failAt: O.Option<nat>)
    requires UniqueOrderIds(t.orders) && Arranges(cs, t)
    ensures var (r, t2) := ReceiptsOutcome(t, O.Some(cs), failAt);
            if failAt.Some? && failAt.value < |cs|
            then r == ReceiptInsertFailed(cs[failAt.value]) && t2.receipts == t.receipts + ReceiptsFor(cs[..failAt.value])
            else r == ReceiptsDone && t2.receipts == t.receipts + ReceiptsFor(cs)
  {
    var cands := Candidates(t.orders, t.customers, t.receipts);
    CandidatesDistinct(t.orders, t.customers, t.receipts);
    ArrangementDistinct(cands, cs);
    forall id | id in cs
      ensures !HasReceipt(t.receipts, id)
    {
      assert id in multiset(cands);
    }
    if failAt.Some? && failAt.value < |cs| {
      FinalizeExactFailing(t.receipts, cs, failAt.value, 0);
    } else {
      FinalizeExactDone(t.receipts, cs, failAt, 0);
    }
  }

  lemma ReceiptsForCons(receipts: seq<Receipt>, cands: seq<int>)
    requires cands != []
    ensures receipts + ReceiptsFor(cands) == (receipts + [Receipt(cands[0])]) + ReceiptsFor(cands[1..])
  {
    assert ReceiptsFor(cands) == [Receipt(cands[0])] + ReceiptsFor(cands[1..]);
  }

  // ---------------------------------------------------------------------------------------
  // InitAdmin

  /** `SELECT COUNT(*) ... WHERE employee_role = 'Administrator'`. */
  function AdminCount(staff: seq<Assignment>): nat
  {
    if staff == [] then 0
    else AdminCount(staff[..|staff| - 1]) + (if staff[|staff| - 1].role == Administrator then 1 else 0)
  }

  lemma {:induction false} AdminCountPositive(staff: seq<Assignment>)
    ensures AdminCount(staff) > 0 <==> exists a :: a in staff && a.role == Administrator
  {
    if staff != [] {
      var init := staff[..|staff| - 1];
      AdminCountPositive(init);
      if exists a :: a in staff && a.role == Administrator {
        var a :| a in staff && a.role == Administrator;
        if a != staff[|staff| - 1] {
          assert a in init;
        }
      }
      if exists a :: a in init && a.role == Administrator {
        var a :| a in init && a.role == Administrator;
        assert a in staff;
      }
    }
  }

  /** The guard of `InitAdmin`: a failed count or an existing administrator returns an error
      before the script is read; `RunScript` is where the script would run. */
  datatype AdminResult = CountFailed | AdminExists | RunScript

  function InitAdmin(staff: seq<Assignment>, countOk: bool): (r: AdminResult)
    ensures r == CountFailed <==> !countOk
    ensures r == AdminExists <==> countOk && exists a :: a in staff && a.role == Administrator
    ensures r == RunScript <==> countOk && forall a :: a in staff ==> a.role != Administrator
  {
    AdminCountPositive(staff);
    if !countOk then CountFailed
    else if AdminCount(staff) > 0 then AdminExists
    else RunScript
  }

  // ---------------------------------------------------------------------------------------
  // CreateEmployees

  /** The draws of one employee: generated login and password, and whether `create_user`
      succeeds. */
  datatype EmployeeDraw = EmployeeDraw(login: string, password: string, createOk: bool)

  /** `EmployeeFailed(n)` is the error return for employee number `n` (counting from 1);
      `EmployeesAborted` is `log.Fatal` on the center query or the panic of `rand.IntN(0)`. */
  datatype EmployeesResult = EmployeesDone | EmployeeFailed(employee: nat) | EmployeesAborted

  /** The caller's credential list `*users`, which the function extends in place. */
  class Credentials {
    var users: seq<User>

    constructor ()
      ensures users == []
    {
      users := [];
    }
  }

  function UsersOf(ds: seq<EmployeeDraw>): (us: seq<User>)
    ensures |us| == |ds| && forall i :: 0 <= i < |ds| ==> us[i] == User(ds[i].login, ds[i].password)
  {
    seq(|ds|, i requires 0 <= i < |ds| => User(ds[i].login, ds[i].password))
  }

  /** Position of the first attempt whose `create_user` fails, or the number of attempts. */
  function FirstRejected(ds: seq<EmployeeDraw>): (k: nat)
    ensures k <= |ds| && forall i :: 0 <= i < k ==> ds[i].createOk
    ensures k < |ds| ==> !ds[k].createOk
  {
    if ds == [] then 0 else if !ds[0].createOk then 0 else 1 + FirstRejected(ds[1..])
  }

  /** The result and the credentials appended. `centers` is the center query's result. */
  function EmployeesOutcome(centers: O.Option<seq<int>>, ds: seq<EmployeeDraw>): (EmployeesResult, seq<User>)
  {
    if centers.None? then (EmployeesAborted, [])
    else if ds != [] && centers.value == [] then (EmployeesAborted, [])
    else
      var k := FirstRejected(ds);
      if k < |ds| then (EmployeeFailed(k + 1), UsersOf(ds[..k + 1])) else (EmployeesDone, UsersOf(ds))
  }

  /** The employee loop: each attempt's credentials are appended before its error is checked. */
  method CreateEmployees(creds: Credentials, count: int, centers: O.Option<seq<int>>, ds: seq<EmployeeDraw>) returns (r: EmployeesResult)
    requires |ds| == Count(count)
    modifies creds
    ensures r == EmployeesOutcome(centers, ds).0
    ensures creds.users == old(creds.users) + EmployeesOutcome(centers, ds).1
  {
    if centers.None? {
      return EmployeesAborted;
    }
    var ids := centers.value;
    var employee := 1;
    while employee <= count
      invariant 1 <= employee <= |ds| + 1
      invariant |ids| == 0 ==> employee == 1
      invariant creds.users == old(creds.users) + UsersOf(ds[..employee - 1])
      invariant forall j :: 0 <= j < employee - 1 ==> ds[j].createOk
    {
      if |ids| == 0 {
        assert ds != [];
        return EmployeesAborted;
      }
      var d := ds[employee - 1];
      assert UsersOf(ds[..employee]) == UsersOf(ds[..employee - 1]) + [User(d.login, d.password)];
      creds.users := creds.users + [User(d.login, d.password)];
      if !d.createOk {
        assert FirstRejected(ds) == employee - 1;
        return EmployeeFailed(employee);
      }
      employee := employee + 1;
    }
    assert ds[..employee - 1] == ds;
    return EmployeesDone;
  }

  /** One credential per attempt made, in order, the failing attempt's included: a failure at
      employee `n` leaves exactly `n` credentials, the last of them rejected; a completed run
      leaves one per employee. */
  lemma CredentialsPerAttempt(centers: O.Option<seq<int>>, ds: seq<EmployeeDraw>)
    ensures var (r, added) := EmployeesOutcome(centers, ds);
            |added| <= |ds| && (forall i :: 0 <= i < |added| ==> added[i] == User(ds[i].login, ds[i].password))
            && (r.EmployeeFailed? ==> 1 <= r.employee == |added| && !ds[|added| - 1].createOk
                                      && forall i :: 0 <= i < |added| - 1 ==> ds[i].createOk)
            && (r == EmployeesDone ==> |added| == |ds| && forall i :: 0 <= i < |ds| ==> ds[i].createOk)
            && (r == EmployeesAborted ==> added == [])
  {
  }
}
