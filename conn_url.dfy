/**
 * The `postgres://` connection URL that both database configurations print with
 * `fmt.Sprintf("postgres://%s:%s@%s:%d/%s?sslmode=disable", ...)`, and the decimal
 * rendering of `%d`. The parser below is a reference decomposition of that layout,
 * used to state what the printed string determines; it is not the driver's parser.
 */
module ConnUrl {
  import opened Outcomes

  const Scheme: string := "postgres://"
  const Params: string := "?sslmode=disable"

  predicate IsDigit(c: char) { '0' <= c <= '9' }

  predicate AllDigits(s: string) { forall i :: 0 <= i < |s| ==> IsDigit(s[i]) }

  function DigitChar(d: nat): (c: char)
    requires d < 10
    ensures IsDigit(c) && c as int - '0' as int == d
  {
    (d + '0' as int) as char
  }

  function DigitValue(c: char): nat
    requires IsDigit(c)
  {
    c as int - '0' as int
  }

  /** `%d` of a non-negative integer: its base-10 digits, most significant first. */
  function Decimal(n: nat): (s: string)
    ensures |s| >= 1 && AllDigits(s)
    ensures s[0] == '0' <==> n == 0
    decreases n
  {
    if n < 10 then [DigitChar(n)] else Decimal(n / 10) + [DigitChar(n % 10)]
  }

  /** `%d` of a signed integer: a leading '-' for negative values. */
  function SignedDecimal(i: int): (s: string)
    ensures |s| >= 1
    ensures s[0] == '-' <==> i < 0
  {
    if i < 0 then "-" + Decimal(-i) else Decimal(i)
  }

  /** The number a string of digits denotes. */
  function ValueOf(s: string): nat
    requires AllDigits(s)
  {
    if s == [] then 0 else 10 * ValueOf(s[..|s| - 1]) + DigitValue(s[|s| - 1])
  }

  function ParseDecimal(s: string): Option<nat>
  {
    if s != [] && AllDigits(s) then Some(ValueOf(s)) else None
  }

  function ParseSignedDecimal(s: string): Option<int>
  {
    if s != [] && s[0] == '-' then
      match ParseDecimal(s[1..])
      case Some(n) => Some(-(n as int))
      case None => None
    else
      match ParseDecimal(s)
      case Some(n) => Some(n)
      case None => None
  }

  lemma ValueOfAppend(s: string, d: char)
    requires AllDigits(s) && IsDigit(d)
    ensures AllDigits(s + [d]) && ValueOf(s + [d]) == 10 * ValueOf(s) + DigitValue(d)
  {
    assert (s + [d])[..|s|] == s;
  }

  lemma DivMod10(n: nat)
    ensures n == 10 * (n / 10) + n % 10 && n % 10 < 10
  {
  }

  /** Reading back what `%d` printed gives the number that was printed. */
  lemma {:induction false} DecimalRoundTrip(n: nat)
    ensures ParseDecimal(Decimal(n)) == Some(n)
    decreases n
  {
    if n < 10 {
      assert Decimal(n) == [] + [DigitChar(n)];
      ValueOfAppend([], DigitChar(n));
    } else {
      var m, r := n / 10, n % 10;
      DivMod10(n);
      DecimalRoundTrip(m);
      var s, d := Decimal(m), DigitChar(r);
      assert Decimal(n) == s + [d];
      ValueOfAppend(s, d);
    }
  }

  lemma SignedDecimalRoundTrip(i: int)
    ensures ParseSignedDecimal(SignedDecimal(i)) == Some(i)
  {
    if i < 0 {
      DecimalRoundTrip(-i);
      assert SignedDecimal(i)[1..] == Decimal(-i);
    } else {
      DecimalRoundTrip(i);
    }
  }

  /** The five components placed verbatim, with no escaping, between the fixed delimiters. */
  function Layout(user: string, password: string, host: string, port: string, db: string): (s: string)
    ensures |s| == |Scheme| + |user| + 1 + |password| + 1 + |host| + 1 + |port| + 1 + |db| + |Params|
    ensures s[..|Scheme|] == Scheme && s[|s| - |Params|..] == Params
  {
    Scheme + user + ":" + password + "@" + host + ":" + port + "/" + db + Params
  }

  datatype Parts = Parts(user: string, password: string, host: string, port: string, db: string)

  /** Index of the first occurrence of `c` in `s`. */
  function FirstIndex(s: string, c: char): (k: nat)
    requires c in s
    ensures k < |s| && s[k] == c && c !in s[..k]
  {
    if s[0] == c then 0 else 1 + FirstIndex(s[1..], c)
  }

  /** Splits `s` around the first `sep`. */
  function Split(s: string, sep: char): Option<(string, string)>
  {
    if sep in s then
      var k := FirstIndex(s, sep);
      Some((s[..k], s[k + 1..]))
    else
      None
  }

  lemma {:induction false} FirstIndexAfter(a: string, sep: char, b: string)
    requires sep !in a
    ensures sep in a + [sep] + b && FirstIndex(a + [sep] + b, sep) == |a|
  {
    var s := a + [sep] + b;
    assert s[|a|] == sep;
    if a != [] {
      assert s[1..] == a[1..] + [sep] + b;
      FirstIndexAfter(a[1..], sep, b);
    }
  }

  lemma SplitAtSeparator(a: string, sep: char, b: string)
    requires sep !in a
    ensures Split(a + [sep] + b, sep) == Some((a, b))
  {
    var s := a + [sep] + b;
    FirstIndexAfter(a, sep, b);
    assert s[..|a|] == a;
    assert s[|a| + 1..] == b;
  }

  /** Reference decomposition: user up to the first ':', password up to the next '@',
      host up to the next ':', port up to the next '/', database name to the end. */
  function ParseUrl(s: string): Option<Parts>
  {
    if |s| < |Scheme| + |Params| || s[..|Scheme|] != Scheme || s[|s| - |Params|..] != Params then
      None
    else
      var body := s[|Scheme|..|s| - |Params|];
      match Split(body, ':')
      case None => None
      case Some((user, rest1)) =>
        match Split(rest1, '@')
        case None => None
        case Some((password, rest2)) =>
          match Split(rest2, ':')
          case None => None
          case Some((host, rest3)) =>
            match Split(rest3, '/')
            case None => None
            case Some((port, db)) => Some(Parts(user, password, host, port, db))
  }

  /** The URL is the scheme, the body of components and delimiters, and the parameters. */
  lemma LayoutBody(p: Parts, body: string)
    requires body == p.user + ":" + (p.password + "@" + (p.host + ":" + (p.port + "/" + p.db)))
    ensures var s := Layout(p.user, p.password, p.host, p.port, p.db);
            |s| >= |Scheme| + |Params| && s[..|Scheme|] == Scheme && s[|s| - |Params|..] == Params
            && s[|Scheme|..|s| - |Params|] == body
  {
    var s := Layout(p.user, p.password, p.host, p.port, p.db);
    assert s == Scheme + body + Params;
  }

  /** When no component contains the delimiter that ends it, the URL determines every component. */
  lemma LayoutRoundTrip(p: Parts)
    requires ':' !in p.user && '@' !in p.password && ':' !in p.host && '/' !in p.port
    ensures ParseUrl(Layout(p.user, p.password, p.host, p.port, p.db)) == Some(p)
  {
    var s := Layout(p.user, p.password, p.host, p.port, p.db);
    var rest3 := p.port + "/" + p.db;
    var rest2 := p.host + ":" + rest3;
    var rest1 := p.password + "@" + rest2;
    var body := p.user + ":" + rest1;
    LayoutBody(p, body);
    SplitAtSeparator(p.user, ':', rest1);
    SplitAtSeparator(p.password, '@', rest2);
    SplitAtSeparator(p.host, ':', rest3);
    SplitAtSeparator(p.port, '/', p.db);
  }

  /** A decimal port never contains the '/' that ends it. */
  lemma DecimalHasNoSlash(n: nat)
    ensures '/' !in Decimal(n)
  {
    var s := Decimal(n);
    assert forall k :: 0 <= k < |s| ==> s[k] != '/';
  }

  lemma SignedDecimalHasNoSlash(i: int)
    ensures '/' !in SignedDecimal(i)
  {
    DecimalHasNoSlash(if i < 0 then -i else i);
    if i < 0 {
      assert SignedDecimal(i) == "-" + Decimal(-i);
    }
  }
}
