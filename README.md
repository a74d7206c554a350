# vehicles-service-stations seeder, modelled in Dafny

This project models the core of a Go program that seeds a PostgreSQL schema for a network of vehicle service stations. It covers:

- the random-id selector, which builds one `SELECT … ORDER BY RANDOM() LIMIT 1` query from functional options and returns the id of one matching row (`RandomEntity`);
- the identifier allow-list, a table→columns registry filled from the schema catalog (`Tables`);
- the order, receipt, administrator and employee workflows of the seeder (`DataMock`);
- the two database configurations and the `postgres://` URL they print (`DbConfig`, `DbCfg`, sharing `ConnUrl`).

The database is abstract. Its tables are sequences of rows held by a `Database` object, and a query that the model does not evaluate is an input. Random choices are oracle inputs: a pick is taken modulo the number of candidate rows (`Choose`), a quantity is `1 + q % 5`, and a status is `k % 3`. The success of each statement is also an oracle input. `log.Fatal` ends the process and so discards an open transaction; the model reports it as `Aborted`, with nothing written.

Files:

- `outcomes.dfy`: `Option` and `Result`.
- `conn_url.dfy`: the URL layout, `%d`, and a reference parser used to state what the printed string determines.
- `db_config.dfy`: `internal/db/config.go`.
- `db_cfg.dfy`: `internal/db/cfg.go`. It is a separate module because both files declare `db.Config`.
- `tables.dfy`: `internal/model/tables.go`.
- `random_entity.dfy`: `internal/utils/random-entity.go`.
- `data_mock.dfy`: `internal/gomock/data-mock.go`.

Behaviour of the code that the model keeps:

- A missing qualifying center, or a spare part or service that cannot be picked, ends the process. The code calls `log.Fatal` (internal/gomock/data-mock.go:225, :283, :318), so the `continue` after it never runs. These paths are `Aborted`.
- `InitAdmin` returns an error when an administrator exists, and cmd/data-mock/main.go:63-64 treats that error as fatal. The model returns `AdminExists`.
- Attaching a spare part never decrements its stock. The stock is read under lock and compared, and nothing else happens to it.
- A failed stock read skips the part (`continue`). It is neither fatal nor an error.
- The candidate query of `CreateReceipts` has no `ORDER BY`, so its rows are an input in any arrangement of the candidate set.

## Model

| member | source | states |
|---|---|---|
| ConnUrl.Decimal | internal/db/config.go:34-35 | `%d` of a non-negative port is a non-empty string of digits, with a leading '0' exactly for 0 |
| ConnUrl.SignedDecimal | internal/db/cfg.go:32-33 | `%d` of a signed port starts with '-' exactly when the port is negative |
| ConnUrl.DecimalRoundTrip | internal/db/config.go:34-35 | reading back the digits `%d` printed gives the number printed |
| ConnUrl.SignedDecimalRoundTrip | internal/db/cfg.go:32-33 | reading back a signed `%d` gives the signed number |
| ConnUrl.Layout | internal/db/config.go:34 | the URL is exactly the five components plus the fixed delimiters: it starts with `postgres://`, ends with `?sslmode=disable`, and its length is the sum |
| ConnUrl.LayoutRoundTrip | internal/db/config.go:34-35 | when no component contains the delimiter that ends it, the URL determines every component |
| DbConfig.NewConfig | internal/db/config.go:17-31 | fails if and only if the address, user or database name is empty or the port is 0; an empty password is accepted; on success every field is stored unchanged |
| DbConfig.ConnectionString | internal/db/config.go:33-36 | the string starts with `postgres://` and ends with `?sslmode=disable` |
| DbConfig.ConnectionStringRoundTrip | internal/db/config.go:33-36 | the printed string holds every component verbatim and the port in decimal, so the configuration reads back from it |
| DbConfig.UnescapedComponentsCollide | internal/db/config.go:33-36 | components are not escaped: two different configurations, one with '@' in the password and one with '@' in the address, print the same string |
| DbConfig.AcceptedConfigPrints | internal/db/config.go:17-36 | a configuration `NewConfig` accepts prints a `postgres://…?sslmode=disable` string that reads back to the same fields |
| DbCfg.NewConfig | internal/db/cfg.go:19-29 | never fails; address, port and database name come from the environment record, user and password from the arguments |
| DbCfg.ConnectionString | internal/db/cfg.go:31-34 | the string starts with `postgres://` and ends with `?sslmode=disable` |
| DbCfg.ConnectionStringRoundTrip | internal/db/cfg.go:31-34 | same layout; every component, including a signed port, reads back |
| DbCfg.NegativePortPrintsSign | internal/db/cfg.go:31-34 | a negative port is printed with a '-' right after the address's ':' |
| DbCfg.EnvConfigRoundTrip | internal/db/cfg.go:19-34 | the configuration built from the environment and the superuser credentials prints the environment's address, port and database name |
| Tables.AllowedTables.constructor | internal/model/tables.go:14-18 | a new registry is empty |
| Tables.AllowedTables.Initialize | internal/model/tables.go:20-77 | the new registry and the result are `Initialized(old registry, catalog)`: a failed listing writes nothing; otherwise the tables before the first failing column listing are written in order and that failure is returned |
| Tables.AllowedTables.IsValid | internal/model/tables.go:79-93 | true exactly when the table is known and the column is empty or in its column list |
| Tables.FirstFailure | internal/model/tables.go:53-56 | the position of the first table whose column listing failed: every earlier listing succeeded |
| Tables.FillEntry | internal/model/tables.go:46-74 | after filling, a listed table holds its last listed columns (overwriting the old entry), and an unlisted table keeps its entry or its absence |
| Tables.FillKeys | internal/model/tables.go:46-74 | the keys after filling are the old keys plus the listed tables |
| Tables.FillIdempotent | internal/model/tables.go:46-74 | filling twice from the same listing gives the same registry as filling once |
| Tables.InitializeIdempotent | internal/model/tables.go:20-77 | running `Initialize` again with the same catalog changes nothing and returns the same result |
| Tables.InitializeEntries | internal/model/tables.go:46-74 | tables before the first failure hold their columns; tables at or after it keep their old entries |
| Tables.FreshRejectsAll | internal/model/tables.go:80-83 | a fresh registry rejects every table and column |
| Tables.UnknownTableRejected | internal/model/tables.go:80-83 | an unknown table is rejected whatever the column |
| Tables.AllowsAfterFill | internal/model/tables.go:84-92 | a listed table accepts the empty column (even with no columns) and exactly its listed columns; other tables answer as before |
| RandomEntity.UpperStringNormal | internal/utils/random-entity.go:56 | upper-casing keeps the length, leaves no ASCII lower-case letter, keeps every character with no ASCII upper-case form, and is idempotent |
| RandomEntity.KindOf | internal/utils/random-entity.go:56-66 | an accepted join kind has four or five characters, each a letter that upper-cases to an ASCII letter |
| RandomEntity.CaseSpellingsAccepted | internal/utils/random-entity.go:56-63 | every case spelling of INNER, LEFT and RIGHT selects that join |
| RandomEntity.KindIgnoresCase | internal/utils/random-entity.go:56-66 | two join kinds that differ only in letter case are accepted or rejected together and map to the same join |
| RandomEntity.KindAccepted | internal/utils/random-entity.go:56-66 | a kind selects a join exactly when it spells that join's name letter by letter, each letter in upper case, lower case, or (for I) as dotless i; no other spelling is accepted |
| RandomEntity.RandomIdOptions.constructor | internal/utils/random-entity.go:42-45 | options start with no joins and no where clause |
| RandomEntity.RandomIdOptions.Apply | internal/utils/random-entity.go:26-38 | `WithJoins` assigns the joins and `WithWhereClause` assigns the clause, each leaving the other field alone; an option error is returned and changes nothing |
| RandomEntity.ConfigureTail | internal/utils/random-entity.go:47-51 | options that do not set a field keep the value an earlier prefix gave it |
| RandomEntity.LaterJoinsReplaceEarlier | internal/utils/random-entity.go:26-51 | the last `WithJoins` wins: its joins replace any earlier ones and are not merged |
| RandomEntity.LaterWhereReplacesEarlier | internal/utils/random-entity.go:33-51 | the last `WithWhereClause` wins |
| RandomEntity.ConfigureFails | internal/utils/random-entity.go:47-51 | configuration fails exactly when some option fails, with the error of the first failing option |
| RandomEntity.ConfigureStops | internal/utils/random-entity.go:47-51 | once a prefix of the options fails, later options are not run and the error stands |
| RandomEntity.FirstUnsupported | internal/utils/random-entity.go:55-66 | the position of the first join with an unsupported kind: every earlier join is supported |
| RandomEntity.BuildQuery | internal/utils/random-entity.go:52-73 | fails exactly when some join kind is unsupported, with the first such kind; otherwise selects `table.column` from `table`, keeps the joins in the given order as `Table ON Condition`, keeps the filter exactly when one was given, and orders by `RANDOM()` with limit 1 |
| RandomEntity.Eval | internal/utils/random-entity.go:69-71 | squirrel's Eq, NotEq, And and Or under SQL's three-valued logic: when no compared column is NULL the filter is never unknown |
| RandomEntity.NegationFlips | internal/utils/random-entity.go:69-71 | NotEq is the three-valued negation of Eq (IS NOT NULL of IS NULL for a nil value), and De Morgan's laws hold for And and Or |
| RandomEntity.Execute | internal/utils/random-entity.go:75-86 | a returned id is the id column of a row of the joined relation that passes the filter; the only errors are not-found and a failed scan |
| RandomEntity.Matching | internal/utils/random-entity.go:69-71 | the rows the WHERE clause keeps are rows of the relation that pass the filter |
| RandomEntity.Choose | internal/utils/random-entity.go:73 | `ORDER BY RANDOM() LIMIT 1` yields a row exactly when there is one, and that row is one of them |
| RandomEntity.RandomIdWithBuilder | internal/utils/random-entity.go:40-87 | applying the options in a loop, building, then executing returns `Select`: configuration, then assembly, then execution |
| RandomEntity.NoOptionsPlainQuery | internal/utils/random-entity.go:42-73 | with no options the query has no joins and no filter |
| RandomEntity.AssembledShape | internal/utils/random-entity.go:52-73 | every built query selects the qualified column from the base table, keeps the joins in order, has a filter exactly when one was given, and is random-ordered with limit 1 |
| RandomEntity.UnsupportedJoinRejected | internal/utils/random-entity.go:64-65 | an unsupported join kind fails whatever the rows, before anything is executed |
| RandomEntity.MatchingComplete | internal/utils/random-entity.go:69-71 | every row that passes the filter is kept |
| RandomEntity.NotFoundExactly | internal/utils/random-entity.go:80-84 | the result is the not-found error exactly when no row passes the filter |
| RandomEntity.EveryMatchReachable | internal/utils/random-entity.go:73-86 | every matching row's id is returned for some random order |
| RandomEntity.UnfilteredSelectionInTable | internal/utils/random-entity.go:40-86 | without options the returned id is the id of some row of the table |
| DataMock.StatusReachable | internal/gomock/data-mock.go:266-273 | every one of the three statuses ("Pending", "In Progress", "Completed") can be drawn |
| DataMock.RoleHolders | internal/gomock/data-mock.go:237-248 | every id the crew query returns belongs to an employee with that role at that center |
| DataMock.RoleHoldersComplete | internal/gomock/data-mock.go:237-248 | every employee with that role at that center is among the ids |
| DataMock.Groups | internal/gomock/data-mock.go:214-218 | `GROUP BY service_center_id` over Manager and Master rows lists each such center once |
| DataMock.GroupsComplete | internal/gomock/data-mock.go:214-218 | every center with a Manager or Master row is a group |
| DataMock.Having | internal/gomock/data-mock.go:219 | `HAVING COUNT(DISTINCT employee_role) > 1` keeps groups with more than one distinct role, without duplicates |
| DataMock.HavingComplete | internal/gomock/data-mock.go:219 | every group with two distinct roles is kept |
| DataMock.TwoRolesAreBoth | internal/gomock/data-mock.go:217-219 | more than one distinct role among Manager and Master means the center has both a master and a manager |
| DataMock.QualifiedMeansBothRoles | internal/gomock/data-mock.go:214-222 | the center query returns exactly the centers that have both a master and a manager |
| DataMock.CrewFilterMatches | internal/gomock/data-mock.go:237-253 | the crew filter (`employee_role` as the master query or the manager query names it, and `service_center_id`) holds of a joined row exactly when it has that role at that center |
| DataMock.CrewMatches | internal/gomock/data-mock.go:242-256 | the joined rows that pass the crew filter carry exactly the role holders' ids, in order |
| DataMock.CrewQueryIsRoleHolders | internal/gomock/data-mock.go:229-259 | the master and manager queries, run through the random-id selector, return a random role holder of the chosen center, or not-found when there is none |
| DataMock.IdQueryIsChoice | internal/gomock/data-mock.go:261-265 | the customer, spare-part and service queries return a random id of their table, and not-found only for an empty table |
| DataMock.SelectCrew | internal/gomock/data-mock.go:213-265 | a chosen crew has a qualified center, a master and a manager assigned there in those roles, and an existing customer |
| DataMock.SkipOnlyWithoutCustomers | internal/gomock/data-mock.go:224-265 | an attempt aborts exactly when no center qualifies, and is skipped exactly when there is no customer (a qualified center always has both roles) |
| DataMock.Quantity | internal/gomock/data-mock.go:292 | the requested quantity lies in 1..5 |
| DataMock.AttachParts | internal/gomock/data-mock.go:279-312 | the spare-part loop, with its used-id set marked before the stock read, returns `PartRows`: fatal with no part to pick, failure at the first reached insert that fails, otherwise the rows of the first draws whose stock read succeeded and covered the quantity |
| DataMock.GrantedPartsSound | internal/gomock/data-mock.go:287-311 | each inserted row belongs to the order, has quantity 1..5 covered by its part's stock, comes from a reached draw, and no part appears twice; at most one row per slot |
| DataMock.SkippedPartNotRetried | internal/gomock/data-mock.go:287-303 | a part skipped for low stock or a failed read is never attached to that order by a later draw |
| DataMock.AttachServices | internal/gomock/data-mock.go:314-334 | the service loop returns `ServiceRows`: fatal with no service, failure at the first new service whose insert fails, otherwise one row per newly drawn service |
| DataMock.FirstServicesSound | internal/gomock/data-mock.go:314-334 | service rows belong to the order, name existing services and never repeat a service; at most one per slot |
| DataMock.FirstServicesComplete | internal/gomock/data-mock.go:322-330 | every service drawn for an order is attached to it |
| DataMock.RunAttempt | internal/gomock/data-mock.go:212-335 | one attempt equals `AttemptStep`: crew selection, then the order insert, then parts, then services; a skip leaves the transaction unchanged |
| DataMock.CreateOrders | internal/gomock/data-mock.go:206-340 | the result and the tables after are `OrdersOutcome` of the tables before: every attempt runs inside one transaction, which is committed once after the loop; only the order tables and the serial counter may change |
| DataMock.AppendKeepsConsistent | internal/gomock/data-mock.go:266-334 | appending one staffed order with its distinct, stock-covered attachment rows keeps the database consistent |
| DataMock.StepGrows | internal/gomock/data-mock.go:212-335 | an attempt that does not stop adds at most one order, which is staffed, uses one serial value, and only appends rows |
| DataMock.StepKeepsConsistent | internal/gomock/data-mock.go:212-335 | each attempt keeps the transaction's committed view consistent |
| DataMock.AttemptsKeepConsistent | internal/gomock/data-mock.go:212-335 | the attempt loop keeps it consistent, appends only, and adds at most one order per attempt |
| DataMock.CreateOrdersKeepsConsistent | internal/gomock/data-mock.go:206-340 | `CreateOrders` keeps the database consistent; anything but a commit leaves every table unchanged; a commit appends at most `tries` staffed orders and touches no other table, so stock quantities are unchanged |
| DataMock.AttachmentsOfOneOrder | internal/gomock/data-mock.go:279-334 | per attempt, at most one part row per drawn part slot and one service row per drawn service slot (so at most `sparePartsCountPerOrder` and `serviceCountPerOrder` rows, the slot counts `CreateOrders` draws per attempt), with no repeated part or service, and part quantities in 1..5 covered by stock |
| DataMock.AttemptsCompose | internal/gomock/data-mock.go:212-335 | the attempt loop over two runs of draws is the loop over the first and, if it is still running, the loop over the second from the batch the first left |
| DataMock.FailedInsertStopsRun | internal/gomock/data-mock.go:212-340 | an attempt that fails or aborts, after any earlier attempts that kept the run going, ends the whole run with its own result; no later attempt runs and nothing is committed |
| DataMock.Candidates | internal/gomock/data-mock.go:383-389 | the candidate set holds only completed orders with an existing customer and no receipt |
| DataMock.CandidatesComplete | internal/gomock/data-mock.go:383-389 | every such order is a candidate |
| DataMock.CandidatesDistinct | internal/gomock/data-mock.go:383-401 | with unique order ids no candidate repeats |
| DataMock.ArrangementDistinct | internal/gomock/data-mock.go:383-401 | any order the database returns the distinct candidates in is still free of repeats |
| DataMock.CreateReceipts | internal/gomock/data-mock.go:375-423 | for candidate rows in whatever order the query returned them, the result and the tables after are `ReceiptsOutcome` of the tables before; only the receipts change |
| DataMock.FinalizeAdds | internal/gomock/data-mock.go:403-421 | the insert loop only appends receipts for candidates that had none, never two for one order, and a completed loop leaves every candidate with a receipt |
| DataMock.CreateReceiptsEffect | internal/gomock/data-mock.go:375-423 | whatever the row order: receipts are added only for completed orders without one, at most one per order; a completed run leaves every completed order with a customer holding a receipt; nothing else changes |
| DataMock.CreateReceiptsKeepsConsistent | internal/gomock/data-mock.go:375-423 | whatever the row order, receipts remain only for completed orders, at most one per order, even after a failed insert |
| DataMock.FinalizeExactFailing | internal/gomock/data-mock.go:403-421 | for distinct candidates without receipts, a failing insert returns its order and leaves exactly the earlier candidates' receipts |
| DataMock.FinalizeExactDone | internal/gomock/data-mock.go:403-421 | with no failing insert every candidate gets exactly one receipt, in candidate order |
| DataMock.CreateReceiptsExact | internal/gomock/data-mock.go:383-421 | for any arrangement of the candidates the query returns, when order ids are unique (and nothing else is assumed of the tables) the re-check never skips: the run inserts one receipt per row in the returned order, and stops at the failing insert if there is one, leaving exactly the earlier rows' receipts |
| DataMock.AdminCountPositive | internal/gomock/data-mock.go:344-349 | the administrator count is positive exactly when some assignment has the Administrator role |
| DataMock.InitAdmin | internal/gomock/data-mock.go:342-351 | a failed count is an error; otherwise the guard refuses exactly when an administrator exists, and lets the script run exactly when none does |
| DataMock.FirstRejected | internal/gomock/data-mock.go:79-100 | the first employee whose creation fails: all earlier ones succeeded |
| DataMock.CreateEmployees | internal/gomock/data-mock.go:54-104 | the result is `EmployeesOutcome` and the credentials list grows by exactly its credentials: aborted on a failed center query, or on an empty center list when at least one employee is to be created; otherwise one credential per attempt, up to and including the first failing one |
| DataMock.CredentialsPerAttempt | internal/gomock/data-mock.go:79-100 | one credential per attempt made, in order, the failing attempt included: a failure at employee n leaves n credentials, the last one rejected; a completed run leaves one per employee |

## Left out

- The process entry point, goroutines, the wait group, the error channel, the context timeout, flags and the JSON credential file (cmd/data-mock/main.go) are not part of this model. They are concurrency and I/O.
- The connection manager (internal/db/connections_manager.go) and the viper environment loading (config/cfg.go) are not part of this model. They wrap libraries; the environment record is an input to `DbCfg.NewConfig`.
- SQL text and the database engine: a query is a datatype, and the relation that the FROM and JOIN clauses produce is an input. Inner, left and right joins are not evaluated. The `FOR UPDATE` lock is a plain read.
- Randomness, gofakeit values and the uniformity of `ORDER BY RANDOM()` are oracle inputs. No distribution claim is made.
- Money amounts are not modelled: prices, `spent_money + 1.00`, bonus points and `total_paid`. Receipts keep only their order.
- `InitAdmin` after the guard (reading and executing the script) is I/O and is represented by the `RunScript` result.
- `CreateServiceCenters`, `CreateCustomers`, `CreateServices`, `CreateStockpile` and `CreateSpareParts` are plain insert loops with no logic beyond counting.
- The rows `create_user` writes and the random role and center passed to it are not modelled. That stored routine is not visible.
- RandomEntity.RandomIdWithBuilder: the `ToSql` error is not modelled, because squirrel cannot fail on the queries built here. Connection errors are not modelled either; only not-found and the scan of a NULL id are.
- RandomEntity.Upper: only the case mappings that can produce an ASCII letter are modelled (a–z, U+0131 to 'I', U+017F to 'S'). Every other character maps to itself, which decides equality with INNER, LEFT and RIGHT the same way as `strings.ToUpper`.
- DataMock.CreateOrders: the orders serial sequence is not advanced when the transaction is not committed, although PostgreSQL sequences do advance.
- DataMock.CreateOrders: the stock read returns the drawn part's row. Part ids are taken as the primary key they are in the schema.
- DataMock.CreateReceipts: the scan of a candidate row is taken to succeed, and the ignored `rows.Err()` is not modelled.
- DataMock.CreateReceipts: the per-order re-check inserts on any error of its query, not only when no receipt is found; the model re-checks against the receipts table and so does not describe an insert after a failed re-check query.
- DataMock.CreateOrders: an error of the center query other than an empty result is also `log.Fatal`; the model has no oracle for it, so `SkipOnlyWithoutCustomers`'s "aborts exactly when no center qualifies" holds for runs without such errors.
- DataMock.CreateOrders: each statement's success is an independent oracle. In PostgreSQL an error inside the transaction (for example at the `FOR UPDATE` stock read, which the code skips) makes every later statement and the commit fail; the model also admits runs where later statements succeed, an over-approximation of what the database allows.
- DataMock.CreateEmployees: a scan error on a center id, which is `log.Fatal`, is folded into the failed center query (`centers == None`).
- DbCfg.Config: the port is an unbounded int, so the model also admits ports outside Go's 64-bit `int`. Nothing is computed from the port.
