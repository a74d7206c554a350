/**
 * The random-id selector of internal/utils/random-entity.go. Functional options fill an
 * options record; the builder turns it into one query (qualified id column, base table,
 * joins in the given order, optional filter, random order, limit one); executing the query
 * returns the id of one matching row. The database is abstract: the rows the FROM and JOIN
 * clauses produce are an input, and which matching row `ORDER BY RANDOM()` puts first is an
 * oracle index.
 */
module RandomEntity {
  import O = Outcomes

  /** A join as callers describe it: kind in any letter case, joined table, ON condition. */
  datatype Join = Join(kind: string, table: string, condition: string)

  /** A value of a row of the joined relation. */
  datatype Value = Int(i: int) | Text(s: string) | Null

  /** One row of the relation FROM and JOIN produce, keyed by the column names predicates use. */
  type Row = map<string, Value>

  /** The filter expressions callers compose: squirrel's Eq, NotEq, And and Or. */
  datatype Predicate =
    | Eq(column: string, value: Value)
    | NotEq(column: string, value: Value)
    | And(conjuncts: seq<Predicate>)
    | Or(disjuncts: seq<Predicate>)

  /** The functional options. `Rejecting` stands for an option closure that reports an error;
      neither of the two shipped constructors ever does. */
  datatype Option =
    | WithJoins(joins: seq<Join>)
    | WithWhereClause(where: O.Option<Predicate>)
    | Rejecting(reason: string)

  datatype JoinKind = InnerJoin | LeftJoin | RightJoin

  /** A join clause of the built query: its kind and the text "Table ON Condition". */
  datatype JoinClause = JoinClause(kind: JoinKind, expr: string)

  datatype Query = Query(column: string, from: string, joins: seq<JoinClause>, filter: O.Option<Predicate>, orderBy: string, limit: nat)

  /** NotFound and ScanFailed are wrapped into the same "cant find random" error by the source. */
  datatype Error = OptionFailed(reason: string) | UnsupportedJoin(kind: string) | NotFound | ScanFailed

  // ---------------------------------------------------------------------------------------
  // Upper-casing of join kinds

  /** Go's `unicode.ToUpper` as far as it decides equality with an upper-case ASCII word:
      'a'..'z' map to 'A'..'Z', dotless i (U+0131) to 'I' and long s (U+017F) to 'S'; no other
      character maps to an ASCII letter, so the rest are left as they are. */
  function Upper(c: char): char
  {
    if 'a' <= c <= 'z' then (c as int - 32) as char
    else if c == 'ı' then 'I'
    else if c == 'ſ' then 'S'
    else c
  }

  function UpperString(s: string): string
  {
    seq(|s|, i requires 0 <= i < |s| => Upper(s[i]))
  }

  /** Upper-casing leaves no ASCII lower-case letter, keeps every character that has no
      upper-case ASCII form, and a second application changes nothing. */
  lemma UpperStringNormal(s: string)
    ensures var u := UpperString(s);
            |u| == |s|
            && (forall i :: 0 <= i < |u| ==> !('a' <= u[i] <= 'z'))
            && (forall i :: 0 <= i < |s| && !('a' <= s[i] <= 'z') && s[i] != 'ı' && s[i] != 'ſ' ==> u[i] == s[i])
            && UpperString(u) == u
  {
    var u := UpperString(s);
    assert forall i :: 0 <= i < |u| ==> Upper(u[i]) == u[i];
  }

  /** Two spellings that differ only in the case of ASCII letters. */
  predicate SameUpToCase(a: string, b: string)
  {
    |a| == |b| && forall i :: 0 <= i < |a| ==> a[i] == b[i] || (IsAsciiLetter(a[i]) && IsAsciiLetter(b[i]) && Upper(a[i]) == Upper(b[i]))
  }

  predicate IsAsciiLetter(c: char) { 'a' <= c <= 'z' || 'A' <= c <= 'Z' }

  /** The switch on `strings.ToUpper(join.Type)`: an accepted kind has four or five
      characters, each a letter that upper-cases to an ASCII letter. */
  function KindOf(kind: string): (r: O.Option<JoinKind>)
    ensures r.Some? ==> (|kind| == 4 || |kind| == 5)
                        && forall i :: 0 <= i < |kind| ==> IsAsciiLetter(kind[i]) || kind[i] == 'ı' || kind[i] == 'ſ'
  {
    var u := UpperString(kind);
    assert forall i :: 0 <= i < |kind| && 'A' <= u[i] <= 'Z' ==> IsAsciiLetter(kind[i]) || kind[i] == 'ı' || kind[i] == 'ſ';
    if u == "INNER" then O.Some(InnerJoin)
    else if u == "LEFT" then O.Some(LeftJoin)
    else if u == "RIGHT" then O.Some(RightJoin)
    else O.None
  }

  /** Every case spelling of INNER, LEFT and RIGHT selects that join. */
  lemma CaseSpellingsAccepted(kind: string)
    ensures SameUpToCase(kind, "INNER") ==> KindOf(kind) == O.Some(InnerJoin)
    ensures SameUpToCase(kind, "LEFT") ==> KindOf(kind) == O.Some(LeftJoin)
    ensures SameUpToCase(kind, "RIGHT") ==> KindOf(kind) == O.Some(RightJoin)
  {
    var u := UpperString(kind);
    assert SameUpToCase(kind, "INNER") ==> u == "INNER";
    assert SameUpToCase(kind, "LEFT") ==> u == "LEFT";
    assert SameUpToCase(kind, "RIGHT") ==> u == "RIGHT";
  }

  predicate Supported(j: Join) { KindOf(j.kind).Some? }

  /** The kind check ignores letter case: spellings that differ only in case are accepted or
      rejected together and map to the same join. */
  lemma KindIgnoresCase(a: string, b: string)
    requires SameUpToCase(a, b)
    ensures KindOf(a) == KindOf(b)
  {
    assert UpperString(a) == UpperString(b);
  }

  /** The upper-case name each join kind is matched against. */
  function KindName(k: JoinKind): string
  {
    match k
    case InnerJoin => "INNER"
    case LeftJoin => "LEFT"
    case RightJoin => "RIGHT"
  }

  /** `a` spells the upper-case ASCII word `w` letter by letter: each character is the letter
      itself, its lower-case form, or a non-ASCII letter Go upper-cases to it (dotless i for
      'I', long s for 'S'). */
  predicate SpellsUpper(a: string, w: string)
  {
    |a| == |w| && forall i :: 0 <= i < |a| ==>
      a[i] == w[i] || ('A' <= w[i] <= 'Z' && a[i] as int == w[i] as int + 32)
      || (w[i] == 'I' && a[i] == 'ı') || (w[i] == 'S' && a[i] == 'ſ')
  }

  /** A kind selects join `k` exactly when it spells `k`'s name: these spellings and no others. */
  lemma KindAccepted(kind: string, k: JoinKind)
    ensures KindOf(kind) == O.Some(k) <==> SpellsUpper(kind, KindName(k))
  {
    var u, w := UpperString(kind), KindName(k);
    if SpellsUpper(kind, w) {
      assert forall i :: 0 <= i < |w| ==> 'A' <= w[i] <= 'Z';
      assert u == w;
    }
    if KindOf(kind) == O.Some(k) {
      assert u == w;
      forall i | 0 <= i < |kind|
        ensures kind[i] == w[i] || ('A' <= w[i] <= 'Z' && kind[i] as int == w[i] as int + 32)
                || (w[i] == 'I' && kind[i] == 'ı') || (w[i] == 'S' && kind[i] == 'ſ')
      {
        assert Upper(kind[i]) == w[i];
      }
    }
  }

  // ---------------------------------------------------------------------------------------
  // Options

  /** The options record after applying `opts` in order: each option assigns its field, so a
      later one replaces an earlier one; the first failing option stops with its error. */
  function Configure(opts: seq<Option>): O.Result<(seq<Join>, O.Option<Predicate>), Error>
  {
    if opts == [] then O.Success(([], O.None))
    else
      match Configure(opts[..|opts| - 1])
      case Failure(e) => O.Failure(e)
      case Success((joins, where)) =>
        match opts[|opts| - 1]
        case WithJoins(js) => O.Success((js, where))
        case WithWhereClause(w) => O.Success((joins, w))
        case Rejecting(reason) => O.Failure(OptionFailed(reason))
  }

  /** The options record `randomIDOptions`, which option closures update in place. */
  class RandomIdOptions {
    var joins: seq<Join>
    var whereClause: O.Option<Predicate>

    constructor ()
      ensures joins == [] && whereClause == O.None
    {
      joins := [];
      whereClause := O.None;
    }

    /** Runs one option on this record: sets one field, or reports the option's error. */
    method Apply(opt: Option) returns (err: O.Option<string>)
      modifies this
      ensures opt.WithJoins? ==> err == O.None && joins == opt.joins && whereClause == old(whereClause)
      ensures opt.WithWhereClause? ==> err == O.None && whereClause == opt.where && joins == old(joins)
      ensures opt.Rejecting? ==> err == O.Some(opt.reason) && joins == old(joins) && whereClause == old(whereClause)
    {
      match opt
      case WithJoins(js) =>
        joins := js;
        err := O.None;
      case WithWhereClause(w) =>
        whereClause := w;
        err := O.None;
      case Rejecting(reason) =>
        err := O.Some(reason);
    }
  }

  /** Options are applied in order and the last assignment to a field wins. */
  lemma LaterJoinsReplaceEarlier(opts: seq<Option>, js: seq<Join>, rest: seq<Option>)
    requires Configure(opts + [WithJoins(js)] + rest).Success?
    requires forall i :: 0 <= i < |rest| ==> !rest[i].WithJoins?
    ensures Configure(opts + [WithJoins(js)] + rest).value.0 == js
  {
    ConfigureTail(opts + [WithJoins(js)], rest);
    assert (opts + [WithJoins(js)])[..|opts|] == opts;
  }

  lemma LaterWhereReplacesEarlier(opts: seq<Option>, w: O.Option<Predicate>, rest: seq<Option>)
    requires Configure(opts + [WithWhereClause(w)] + rest).Success?
    requires forall i :: 0 <= i < |rest| ==> !rest[i].WithWhereClause?
    ensures Configure(opts + [WithWhereClause(w)] + rest).value.1 == w
  {
    ConfigureTail(opts + [WithWhereClause(w)], rest);
    assert (opts + [WithWhereClause(w)])[..|opts|] == opts;
  }

  /** Options that set neither field's rival keep what an earlier prefix set. */
  lemma {:induction false} ConfigureTail(prefix: seq<Option>, rest: seq<Option>)
    requires Configure(prefix + rest).Success?
    ensures Configure(prefix).Success?
    ensures (forall i :: 0 <= i < |rest| ==> !rest[i].WithJoins?) ==> Configure(prefix + rest).value.0 == Configure(prefix).value.0
    ensures (forall i :: 0 <= i < |rest| ==> !rest[i].WithWhereClause?) ==> Configure(prefix + rest).value.1 == Configure(prefix).value.1
  {
    if rest == [] {
      assert prefix + rest == prefix;
    } else {
      var init := rest[..|rest| - 1];
      assert (prefix + rest)[..|prefix + rest| - 1] == prefix + init;
      assert (prefix + rest)[|prefix + rest| - 1] == rest[|rest| - 1];
      assert Configure(prefix + init).Success?;
      ConfigureTail(prefix, init);
    }
  }

  /** A failing option stops configuration: the result is the error of the first failing option. */
  lemma {:induction false} ConfigureFails(opts: seq<Option>)
    ensures Configure(opts).Failure? <==> exists i :: 0 <= i < |opts| && opts[i].Rejecting?
    ensures Configure(opts).Failure? ==>
              exists i :: 0 <= i < |opts| && opts[i].Rejecting? && Configure(opts).error == OptionFailed(opts[i].reason)
                          && forall j :: 0 <= j < i ==> !opts[j].Rejecting?
  {
    if opts != [] {
      var init := opts[..|opts| - 1];
      ConfigureFails(init);
      assert forall i :: 0 <= i < |init| ==> init[i] == opts[i];
    }
  }

  // ---------------------------------------------------------------------------------------
  // Query assembly

  function Clause(j: Join): JoinClause
    requires Supported(j)
  {
    JoinClause(KindOf(j.kind).value, j.table + " ON " + j.condition)
  }

  /** Index of the first join with an unsupported kind, or the number of joins. */
  function FirstUnsupported(joins: seq<Join>): (k: nat)
    ensures k <= |joins| && forall i :: 0 <= i < k ==> Supported(joins[i])
    ensures k < |joins| ==> !Supported(joins[k])
  {
    if joins == [] then 0 else if !Supported(joins[0]) then 0 else 1 + FirstUnsupported(joins[1..])
  }

  /** The query the builder produces from the options record, or the unsupported-kind error
      of the first offending join. */
  function Assemble(table: string, column: string, joins: seq<Join>, filter: O.Option<Predicate>): (r: O.Result<Query, Error>)
  {
    var k := FirstUnsupported(joins);
    if k < |joins| then O.Failure(UnsupportedJoin(joins[k].kind))
    else O.Success(Query(table + "." + column, table, seq(|joins|, i requires 0 <= i < |joins| => Clause(joins[i])), filter, "RANDOM()", 1))
  }

  /** The builder loop: the query grows join by join; an unsupported kind stops it. */
  method BuildQuery(table: string, column: string, joins: seq<Join>, filter: O.Option<Predicate>) returns (r: O.Result<Query, Error>)
    ensures r.Failure? <==> exists i :: 0 <= i < |joins| && !Supported(joins[i])
    ensures r.Failure? ==> exists i :: 0 <= i < |joins| && !Supported(joins[i]) && r.error == UnsupportedJoin(joins[i].kind)
                                       && forall j :: 0 <= j < i ==> Supported(joins[j])
    ensures r.Success? ==> r.value.column == table + "." + column && r.value.from == table
    ensures r.Success? ==> |r.value.joins| == |joins| && forall i :: 0 <= i < |joins| ==> r.value.joins[i] == Clause(joins[i])
    ensures r.Success? ==> r.value.filter == filter && r.value.orderBy == "RANDOM()" && r.value.limit == 1
    ensures r == Assemble(table, column, joins, filter)
  {
    var clauses: seq<JoinClause> := [];
    var i := 0;
    while i < |joins|
      invariant 0 <= i <= |joins|
      invariant |clauses| == i
      invariant forall j :: 0 <= j < i ==> Supported(joins[j]) && clauses[j] == Clause(joins[j])
    {
      var kind := KindOf(joins[i].kind);
      match kind
      case None =>
        FirstUnsupportedIs(joins, i);
        return O.Failure(UnsupportedJoin(joins[i].kind));
      case Some(k) =>
        clauses := clauses + [JoinClause(k, joins[i].table + " ON " + joins[i].condition)];
      i := i + 1;
    }
    FirstUnsupportedIs(joins, i);
    assert clauses == seq(|joins|, j requires 0 <= j < |joins| => Clause(joins[j]));
    var q := Query(table + "." + column, table, clauses, filter, "RANDOM()", 1);
    return O.Success(q);
  }

  lemma {:induction false} FirstUnsupportedIs(joins: seq<Join>, i: nat)
    requires i <= |joins| && forall j :: 0 <= j < i ==> Supported(joins[j])
    requires i < |joins| ==> !Supported(joins[i])
    ensures FirstUnsupported(joins) == i
  {
    if i > 0 {
      FirstUnsupportedIs(joins[1..], i - 1);
    }
  }

  // ---------------------------------------------------------------------------------------
  // Execution

  /** SQL's three truth values. */
  datatype Truth = Yes | No | Unknown

  function Lookup(row: Row, column: string): Value
  {
    if column in row then row[column] else Null
  }

  /** squirrel renders Eq with a nil value as IS NULL and NotEq with nil as IS NOT NULL;
      a comparison with NULL otherwise is unknown, And and Or follow Kleene's logic, and an
      empty And is true and an empty Or false. */
  function Eval(p: Predicate, row: Row): (r: Truth)
    ensures NullFree(p, row) ==> r != Unknown
    decreases p
  {
    match p
    case Eq(c, v) =>
      if v == Null then (if Lookup(row, c) == Null then Yes else No)
      else if Lookup(row, c) == Null then Unknown
      else if Lookup(row, c) == v then Yes else No
    case NotEq(c, v) =>
      if v == Null then (if Lookup(row, c) != Null then Yes else No)
      else if Lookup(row, c) == Null then Unknown
      else if Lookup(row, c) != v then Yes else No
    case And(ps) =>
      if exists i :: 0 <= i < |ps| && Eval(ps[i], row) == No then No
      else if exists i :: 0 <= i < |ps| && Eval(ps[i], row) == Unknown then Unknown
      else Yes
    case Or(ps) =>
      if exists i :: 0 <= i < |ps| && Eval(ps[i], row) == Yes then Yes
      else if exists i :: 0 <= i < |ps| && Eval(ps[i], row) == Unknown then Unknown
      else No
  }

  /** Every column the predicate compares holds a value in the row. */
  predicate NullFree(p: Predicate, row: Row)
    decreases p
  {
    match p
    case Eq(c, _) => Lookup(row, c) != Null
    case NotEq(c, _) => Lookup(row, c) != Null
    case And(ps) => forall i :: 0 <= i < |ps| ==> NullFree(ps[i], row)
    case Or(ps) => forall i :: 0 <= i < |ps| ==> NullFree(ps[i], row)
  }

  function Not(t: Truth): Truth
  {
    match t
    case Yes => No
    case No => Yes
    case Unknown => Unknown
  }

  /** The negated filter: Eq and NotEq swap, And and Or swap by De Morgan's laws. */
  function Negation(p: Predicate): Predicate
    decreases p
  {
    match p
    case Eq(c, v) => NotEq(c, v)
    case NotEq(c, v) => Eq(c, v)
    case And(ps) => Or(seq(|ps|, i requires 0 <= i < |ps| => Negation(ps[i])))
    case Or(ps) => And(seq(|ps|, i requires 0 <= i < |ps| => Negation(ps[i])))
  }

  /** NotEq is the three-valued negation of Eq (IS NOT NULL of IS NULL for a nil value), and
      De Morgan's laws hold: the negated filter is true exactly where the filter is false. */
  lemma {:induction false} NegationFlips(p: Predicate, row: Row)
    ensures Eval(Negation(p), row) == Not(Eval(p, row))
    decreases p
  {
    match p
    case Eq(_, _) =>
    case NotEq(_, _) =>
    case And(ps) =>
      var qs := seq(|ps|, i requires 0 <= i < |ps| => Negation(ps[i]));
      forall i | 0 <= i < |ps| ensures Eval(qs[i], row) == Not(Eval(ps[i], row)) {
        NegationFlips(ps[i], row);
      }
    case Or(ps) =>
      var qs := seq(|ps|, i requires 0 <= i < |ps| => Negation(ps[i]));
      forall i | 0 <= i < |ps| ensures Eval(qs[i], row) == Not(Eval(ps[i], row)) {
        NegationFlips(ps[i], row);
      }
  }

  /** A row passes the WHERE clause when the filter is absent or true of it. */
  predicate Passes(filter: O.Option<Predicate>, row: Row)
  {
    filter.None? || Eval(filter.value, row) == Yes
  }

  function Matching(filter: O.Option<Predicate>, rows: seq<Row>): (m: seq<Row>)
    ensures forall r :: r in m ==> r in rows && Passes(filter, r)
    ensures |m| <= |rows|
  {
    if rows == [] then []
    else
      var rest := Matching(filter, rows[..|rows| - 1]);
      if Passes(filter, rows[|rows| - 1]) then rest + [rows[|rows| - 1]] else rest
  }

  /** The row `ORDER BY RANDOM() LIMIT 1` returns, with `pick` standing for the random order. */
  function Choose<T>(xs: seq<T>, pick: nat): (r: O.Option<T>)
    ensures r.Some? <==> |xs| > 0
    ensures r.Some? ==> r.value == xs[pick % |xs|] && r.value in xs
  {
    if xs == [] then O.None else O.Some(xs[pick % |xs|])
  }

  /** Runs the query over the rows its FROM and JOIN clauses produce: no matching row is
      NotFound; a chosen row whose id is not an integer (NULL under a RIGHT JOIN) fails the scan. */
  function Execute(q: Query, joined: seq<Row>, pick: nat): (r: O.Result<int, Error>)
    ensures r.Success? ==> exists row :: row in joined && Passes(q.filter, row) && Lookup(row, q.column) == Int(r.value)
    ensures r.Failure? ==> r.error == NotFound || r.error == ScanFailed
  {
    match Choose(Matching(q.filter, joined), pick)
    case None => O.Failure(NotFound)
    case Some(row) =>
      match Lookup(row, q.column)
      case Int(id) => O.Success(id)
      case _ => O.Failure(ScanFailed)
  }

  /** `RandomIDWithBuilder` as a whole: options, then assembly, then execution. */
  function Select(table: string, column: string, opts: seq<Option>, joined: seq<Row>, pick: nat): O.Result<int, Error>
  {
    match Configure(opts)
    case Failure(e) => O.Failure(e)
    case Success((joins, filter)) =>
      match Assemble(table, column, joins, filter)
      case Failure(e) => O.Failure(e)
      case Success(q) => Execute(q, joined, pick)
  }

  /** The options loop over a fresh record, the builder, then execution. */
  method RandomIdWithBuilder(table: string, column: string, opts: seq<Option>, joined: seq<Row>, pick: nat) returns (r: O.Result<int, Error>)
    ensures r == Select(table, column, opts, joined, pick)
  {
    var options := new RandomIdOptions();
    var i := 0;
    while i < |opts|
      invariant 0 <= i <= |opts|
      invariant Configure(opts[..i]) == O.Success((options.joins, options.whereClause))
    {
      assert opts[..i + 1][..i] == opts[..i];
      var err := options.Apply(opts[i]);
      if err.Some? {
        assert Configure(opts[..i + 1]) == O.Failure(OptionFailed(err.value));
        ConfigureStops(opts, i + 1);
        return O.Failure(OptionFailed(err.value));
      }
      i := i + 1;
    }
    assert opts[..i] == opts;
    var q := BuildQuery(table, column, options.joins, options.whereClause);
    if q.Failure? {
      return O.Failure(q.error);
    }
    r := Execute(q.value, joined, pick);
  }

  /** Once a prefix of the options fails, so do all the options. */
  lemma {:induction false} ConfigureStops(opts: seq<Option>, k: nat)
    requires k <= |opts| && Configure(opts[..k]).Failure?
    ensures Configure(opts) == Configure(opts[..k])
    decreases |opts| - k
  {
    if k < |opts| {
      assert opts[..k + 1][..k] == opts[..k];
      ConfigureStops(opts, k + 1);
    } else {
      assert opts[..k] == opts;
    }
  }

  // ---------------------------------------------------------------------------------------
  // Properties of the selection

  /** With no options the query has no joins and no filter. */
  lemma NoOptionsPlainQuery(table: string, column: string)
    ensures Configure([]) == O.Success(([], O.None))
    ensures Assemble(table, column, [], O.None) == O.Success(Query(table + "." + column, table, [], O.None, "RANDOM()", 1))
  {
    assert |Assemble(table, column, [], O.None).value.joins| == 0;
  }

  /** Every successfully built query selects the qualified column from the base table, keeps
      the joins in order and the filter as given, and is randomly ordered and limited to one row. */
  lemma AssembledShape(table: string, column: string, joins: seq<Join>, filter: O.Option<Predicate>)
    requires Assemble(table, column, joins, filter).Success?
    ensures var q := Assemble(table, column, joins, filter).value;
            q.column == table + "." + column && q.from == table
            && |q.joins| == |joins| && (forall i :: 0 <= i < |joins| ==> q.joins[i].expr == joins[i].table + " ON " + joins[i].condition)
            && (q.filter.Some? <==> filter.Some?) && q.orderBy == "RANDOM()" && q.limit == 1
  {
  }

  /** An unsupported join kind fails before anything is executed, whatever the rows. */
  lemma UnsupportedJoinRejected(table: string, column: string, opts: seq<Option>, joined: seq<Row>, pick: nat, i: nat)
    requires Configure(opts).Success? && i < |Configure(opts).value.0|
    requires !Supported(Configure(opts).value.0[i])
    ensures Select(table, column, opts, joined, pick).Failure?
    ensures Select(table, column, opts, joined, pick).error.UnsupportedJoin?
  {
  }

  lemma {:induction false} MatchingComplete(filter: O.Option<Predicate>, rows: seq<Row>, row: Row)
    requires row in rows && Passes(filter, row)
    ensures row in Matching(filter, rows)
  {
    var init := rows[..|rows| - 1];
    if row != rows[|rows| - 1] {
      assert row in init;
      MatchingComplete(filter, init, row);
    }
  }

  /** No id is ever returned when no row passes the filter; NotFound is reported exactly then. */
  lemma NotFoundExactly(q: Query, joined: seq<Row>, pick: nat)
    ensures Execute(q, joined, pick) == O.Failure(NotFound) <==> forall row :: row in joined ==> !Passes(q.filter, row)
  {
    if exists row :: row in joined && Passes(q.filter, row) {
      var row :| row in joined && Passes(q.filter, row);
      MatchingComplete(q.filter, joined, row);
    }
  }

  lemma SmallRemainder(k: nat, n: nat)
    requires k < n
    ensures k % n == k
  {
  }

  /** Every matching row can come first under the random order: no matching id is starved. */
  lemma EveryMatchReachable(q: Query, joined: seq<Row>, row: Row, id: int)
    requires row in joined && Passes(q.filter, row) && Lookup(row, q.column) == Int(id)
    ensures exists pick: nat :: Execute(q, joined, pick) == O.Success(id)
  {
    MatchingComplete(q.filter, joined, row);
    var m := Matching(q.filter, joined);
    var k :| 0 <= k < |m| && m[k] == row;
    SmallRemainder(k, |m|);
    assert Choose(m, k) == O.Some(row);
    assert Execute(q, joined, k) == O.Success(id);
  }

  /** Without options every row passes, so the id returned is one of the table's ids. */
  lemma UnfilteredSelectionInTable(table: string, column: string, joined: seq<Row>, pick: nat)
    requires Select(table, column, [], joined, pick).Success?
    ensures exists row :: row in joined && Lookup(row, table + "." + column) == Int(Select(table, column, [], joined, pick).value)
  {
    NoOptionsPlainQuery(table, column);
    var r := Execute(Query(table + "." + column, table, [], O.None, "RANDOM()", 1), joined, pick);
  }
}
