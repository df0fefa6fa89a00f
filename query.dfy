/**
 * Request validation and query-string building: validateParameters,
 * getQueryString and the part of scrape that runs before the network call.
 */
module Query {
  import opened Basics

  /** A Python dict from parameter names to values, in insertion order. */
  type Params = seq<(string, Value)>

  /** Dictionary keys are unique. */
  predicate DistinctKeys(ps: Params) {
    forall i, j :: 0 <= i < j < |ps| ==> ps[i].0 != ps[j].0
  }

  /** Dictionary lookup: the value bound to `k`, if `k` is a key. */
  function Lookup(ps: Params, k: string): (r: Option<Value>)
    ensures r.None? <==> forall i :: 0 <= i < |ps| ==> ps[i].0 != k
    ensures r.Some? ==> exists i :: 0 <= i < |ps| && ps[i] == (k, r.value)
  {
    if ps == [] then None
    else if ps[0].0 == k then Some(ps[0].1)
    else Lookup(ps[1..], k)
  }

  /** `k in params and params[k] is not None` */
  predicate Present(ps: Params, k: string) {
    Lookup(ps, k).Some? && Lookup(ps, k).value != Null
  }

  /** Every expected name is a key of `ps` whose value is not None. */
  predicate AllPresent(expected: seq<string>, ps: Params) {
    forall i :: 0 <= i < |expected| ==> Present(ps, expected[i])
  }

  /** In a dictionary, a name is present exactly when some binding gives it a non-None value. */
  lemma PresentIffBound(ps: Params, k: string)
    requires DistinctKeys(ps)
    ensures Present(ps, k) <==> exists j :: 0 <= j < |ps| && ps[j].0 == k && ps[j].1 != Null
  {
    if Present(ps, k) {
      var j :| 0 <= j < |ps| && ps[j] == (k, Lookup(ps, k).value);
      assert ps[j].0 == k && ps[j].1 != Null;
    } else if Lookup(ps, k).Some? {
      var j :| 0 <= j < |ps| && ps[j] == (k, Lookup(ps, k).value);
      forall j' | 0 <= j' < |ps| && ps[j'].0 == k ensures ps[j'].1 == Null {
        assert j' == j;
      }
    }
  }

  /** validateParameters: the loop over the expected names, returning at the first absent one. */
  method ValidateParameters(expected: seq<string>, actual: Params) returns (ok: bool)
    ensures ok <==> AllPresent(expected, actual)
    ensures expected == [] ==> ok
  {
    for i := 0 to |expected|
      invariant forall j :: 0 <= j < i ==> Present(actual, expected[j])
    {
      var v := Lookup(actual, expected[i]);
      if v.None? || v.value == Null {
        return false;
      }
    }
    return true;
  }

  function Digit(d: int): char
    requires 0 <= d < 10
  {
    "0123456789"[d]
  }

  predicate IsDigit(c: char) {
    '0' <= c <= '9'
  }

  /** The number a string of decimal digits denotes. */
  function DecimalValue(s: string): nat
    requires forall k :: 0 <= k < |s| ==> IsDigit(s[k])
    decreases |s|
  {
    if s == [] then 0
    else
      assert IsDigit(s[|s| - 1]);
      10 * DecimalValue(s[..|s| - 1]) + (s[|s| - 1] as int - '0' as int)
  }

  /** Reading back the digits str(n) writes gives n. */
  lemma {:induction false} DecimalRoundTrip(n: nat)
    ensures DecimalValue(NatToString(n)) == n
    decreases n
  {
    var s := NatToString(n);
    if n >= 10 {
      DecimalRoundTrip(n / 10);
      assert s == NatToString(n / 10) + [Digit(n % 10)];
      assert s[..|s| - 1] == NatToString(n / 10);
      assert s[|s| - 1] as int - '0' as int == n % 10;
    } else {
      assert s == [Digit(n)];
    }
  }

  /** The decimal digits of n, most significant first, with no leading zero. */
  function NatToString(n: nat): (r: string)
    ensures |r| >= 1 && forall k :: 0 <= k < |r| ==> IsDigit(r[k])
    ensures r[0] == '0' ==> n == 0
    decreases n
  {
    if n < 10 then [Digit(n)] else NatToString(n / 10) + [Digit(n % 10)]
  }

  /** str(v), as '{}'.format renders a value. */
  function Render(v: Value): string {
    match v
    case Null => "None"
    case Int(i) => if i < 0 then "-" + NatToString(-i) else NatToString(i)
    case Str(s) => s
  }

  /** An optional minus sign followed by at least one decimal digit. */
  predicate IsNumeral(s: string) {
    var start := if |s| > 0 && s[0] == '-' then 1 else 0;
    start < |s| && forall k :: start <= k < |s| ==> IsDigit(s[k])
  }

  /** The integer a numeral denotes. */
  function NumeralValue(s: string): int
    requires IsNumeral(s)
  {
    if s[0] == '-' then -(DecimalValue(s[1..]) as int) else DecimalValue(s)
  }

  /** str(i) is a numeral, signed exactly when i is negative, that reads back as i. */
  lemma RenderIntRoundTrip(i: int)
    ensures IsNumeral(Render(Int(i)))
    ensures Render(Int(i))[0] == '-' <==> i < 0
    ensures NumeralValue(Render(Int(i))) == i
  {
    var r := Render(Int(i));
    if i < 0 {
      DecimalRoundTrip(-i);
      assert r[1..] == NatToString(-i);
    } else {
      DecimalRoundTrip(i);
      assert IsDigit(r[0]);
    }
  }

  /** '{}={}'.format(p, params[p]) */
  function Pair(p: (string, Value)): string {
    p.0 + "=" + Render(p.1)
  }

  /** A rendered pair is the key, then '=', then the rendered value. */
  lemma PairSplits(p: (string, Value))
    ensures |Pair(p)| > |p.0| && Pair(p)[..|p.0|] == p.0 && Pair(p)[|p.0|] == '=' &&
            Pair(p)[|p.0| + 1..] == Render(p.1)
  {
    var r := Pair(p);
    assert r == p.0 + ("=" + Render(p.1));
  }

  /** The pairs of `ps`, in order, separated by '&'. */
  function Joined(ps: Params): (r: string)
    ensures r == "" <==> ps == []
    decreases |ps|
  {
    if ps == [] then ""
    else if |ps| == 1 then Pair(ps[0])
    else Pair(ps[0]) + "&" + Joined(ps[1..])
  }

  /** The joined pairs start with the first pair. */
  lemma JoinedStartsWithFirst(ps: Params)
    requires ps != []
    ensures Pair(ps[0]) <= Joined(ps)
  {
    if |ps| > 1 {
      assert Joined(ps) == Pair(ps[0]) + ("&" + Joined(ps[1..]));
    }
  }

  /** The query string: '?' and the joined pairs, or nothing when there are no parameters. */
  function QueryString(ps: Params): (r: string)
    ensures r == "" <==> ps == []
    ensures ps != [] ==> r[0] == '?'
  {
    if ps == [] then "" else "?" + Joined(ps)
  }

  /** What getQueryString's loop accumulates after '?': each pair followed by '&'. */
  function Terminated(ps: Params): string
    decreases |ps|
  {
    if ps == [] then "" else Terminated(ps[..|ps| - 1]) + Pair(ps[|ps| - 1]) + "&"
  }

  lemma {:induction false} JoinedSnoc(ps: Params, p: (string, Value))
    requires ps != []
    ensures Joined(ps + [p]) == Joined(ps) + "&" + Pair(p)
    decreases |ps|
  {
    if |ps| == 1 {
      assert (ps + [p])[1..] == [p];
    } else {
      assert (ps + [p])[1..] == ps[1..] + [p];
      JoinedSnoc(ps[1..], p);
    }
  }

  /** Stripping the last character of the accumulated string gives the '&'-joined pairs. */
  lemma {:induction false} TerminatedJoined(ps: Params)
    requires ps != []
    ensures Terminated(ps) == Joined(ps) + "&"
    decreases |ps|
  {
    var n := |ps|;
    if n == 1 {
      assert ps[..0] == [];
    } else {
      TerminatedJoined(ps[..n - 1]);
      assert ps[..n - 1] + [ps[n - 1]] == ps;
      JoinedSnoc(ps[..n - 1], ps[n - 1]);
    }
  }

  /**
   * One more parameter adds exactly one pair at the end: the first after '?',
   * every later one after '&', with no '&' left behind it.
   */
  lemma {:induction false} QueryStringSnoc(ps: Params, p: (string, Value))
    ensures QueryString(ps + [p]) ==
      if ps == [] then "?" + Pair(p) else QueryString(ps) + "&" + Pair(p)
  {
    if ps == [] {
      assert ps + [p] == [p];
    } else {
      JoinedSnoc(ps, p);
    }
  }

  /** getQueryString: append every pair followed by '&' to '?', then drop the last character. */
  method GetQueryString(params: Params) returns (q: string)
    ensures q == QueryString(params)
    ensures params == [] ==> q == ""
    ensures params != [] ==> q[0] == '?'
  {
    var acc := "?";
    for i := 0 to |params|
      invariant acc == "?" + Terminated(params[..i])
    {
      assert params[..i + 1][..i] == params[..i];
      assert Terminated(params[..i + 1]) == Terminated(params[..i]) + Pair(params[i]) + "&";
      acc := acc + Pair(params[i]) + "&";
    }
    assert params[..|params|] == params;
    q := acc[..|acc| - 1];
    if params != [] {
      TerminatedJoined(params);
      assert acc == ("?" + Joined(params)) + "&";
      assert q == "?" + Joined(params);
    } else {
      assert acc == "?";
    }
  }

  /** The URL scrape fetches: the base URL and the query string, unless validation fails. */
  function RequestUrl(url: string, expected: seq<string>, actual: Params): (r: Result<string>)
    ensures r.Failure? <==> !AllPresent(expected, actual)
    ensures r.Failure? ==> r.error == ValidationError
    ensures r.Success? ==> url <= r.value && (actual == [] <==> r.value == url)
  {
    if AllPresent(expected, actual) then Success(url + QueryString(actual)) else Failure(ValidationError)
  }

  /** The front of scrape: validate, raise before any fetch on failure, then append the query string. */
  method Scrape(url: string, expected: seq<string>, actual: Params) returns (r: Result<string>)
    ensures r == RequestUrl(url, expected, actual)
    ensures r.Failure? <==> !AllPresent(expected, actual)
    ensures r.Failure? ==> r.error == ValidationError
    ensures r.Success? ==> r.value == url + QueryString(actual)
  {
    var ok := ValidateParameters(expected, actual);
    if !ok {
      return Failure(ValidationError);
    }
    var queryString := GetQueryString(actual);
    return Success(url + queryString);
  }

  /** A request without expected or supplied parameters always validates and keeps its URL. */
  lemma NoParamsKeepsUrl(url: string)
    ensures RequestUrl(url, [], []) == Success(url)
  {
    assert url + QueryString([]) == url;
  }

  /** requiredParamNames ["A", "B"]: a missing "B" fails, a None "B" fails, both set succeeds. */
  lemma ValidationExamples()
    ensures !AllPresent(["A", "B"], [("A", Int(1))])
    ensures !AllPresent(["A", "B"], [("A", Int(1)), ("B", Null)])
    ensures RequestUrl("u", ["A", "B"], [("A", Int(1)), ("B", Int(2))]) == Success("u?A=1&B=2")
  {
    assert !Present([("A", Int(1))], ["A", "B"][1]);
    assert !Present([("A", Int(1)), ("B", Null)], ["A", "B"][1]);
    assert Present([("A", Int(1)), ("B", Int(2))], "A");
    assert Present([("A", Int(1)), ("B", Int(2))], "B");
    assert Render(Int(1)) == "1" && Render(Int(2)) == "2";
    var ps := [("A", Int(1)), ("B", Int(2))];
    assert ps[1..] == [("B", Int(2))];
    assert Joined(ps) == "A=1" + "&" + "B=2";
    var names := ["A", "B"];
    assert AllPresent(names, ps) by {
      forall i | 0 <= i < |names| ensures Present(ps, names[i]) {
        assert names[i] == "A" || names[i] == "B";
      }
    }
    assert "u" + QueryString(ps) == "u?A=1&B=2";
  }
}
