/**
 * The post-request half of `fetch_and_display_users`: the outcome of the
 * GET request is an input value, and what the procedure prints is a
 * sequence of strings, one per `print` call.
 *
 * `Report` is the reference definition (select the matching records, then
 * number and render them); `FetchAndDisplayUsers` is the procedure itself
 * (one pass that bumps a counter and appends lines), proved equal to it.
 */
module UserReport {
  import opened Text

  datatype Option<T> = None | Some(value: T)

  /** The nested `address` mapping; `city` is the only key that is read. */
  datatype Address = Address(city: Option<string>)

  /** One decoded user record; each key may be missing. */
  datatype User = User(
    name: Option<string>,
    username: Option<string>,
    email: Option<string>,
    address: Option<Address>)

  /**
   * What the GET request, the status check and the JSON decoding produced.
   * A body that is not JSON arrives as `NetworkError`, because the
   * decoder's error is a `RequestException` in `requests` 2.27 and later.
   */
  datatype FetchOutcome =
    | Ok(records: seq<User>)
    | HttpError(statusCode: nat)
    | NetworkError(details: string)

  /** The value printed for a missing field. */
  const NotAvailable: string := "N/A"

  /** `"-" * 50`, printed under the two header lines. */
  const Rule: string := "-------------------------" + "-------------------------"

  /** The rule is fifty dashes. */
  lemma RuleIsFiftyDashes()
    ensures |Rule| == 50 && forall k :: 0 <= k < |Rule| ==> Rule[k] == '-'
  {
  }

  /** The line that closes each user block. */
  const Separator: string := "------------------------"

  const EmptyResultLine: string :=
    "\U{2705} Success, " + "but the API returned an empty list of user records."

  // ---------------------------------------------------------------------
  // Field extraction with defaults
  // ---------------------------------------------------------------------

  /** `user.get(key, 'N/A')` on a key whose lookup gave `field`. */
  function OrNotAvailable(field: Option<string>): (r: string)
    ensures field.Some? ==> r == field.value
    ensures field.None? ==> r == NotAvailable
  {
    match field
    case Some(v) => v
    case None => NotAvailable
  }

  /** The `name` key, or `N/A` when it is missing. */
  function Name(u: User): (r: string)
    ensures u.name.Some? ==> r == u.name.value
    ensures u.name.None? ==> r == NotAvailable
  {
    OrNotAvailable(u.name)
  }

  /** The `username` key, or `N/A` when it is missing. */
  function Username(u: User): (r: string)
    ensures u.username.Some? ==> r == u.username.value
    ensures u.username.None? ==> r == NotAvailable
  {
    OrNotAvailable(u.username)
  }

  /** The `email` key, or `N/A` when it is missing. */
  function Email(u: User): (r: string)
    ensures u.email.Some? ==> r == u.email.value
    ensures u.email.None? ==> r == NotAvailable
  {
    OrNotAvailable(u.email)
  }

  /** `user.get('address', {}).get('city', 'N/A')`. */
  function City(u: User): (r: string)
    ensures u.address.Some? && u.address.value.city.Some? ==> r == u.address.value.city.value
    ensures u.address.None? || u.address.value.city.None? ==> r == NotAvailable
  {
    match u.address
    case None => NotAvailable
    case Some(a) => OrNotAvailable(a.city)
  }

  // ---------------------------------------------------------------------
  // The filter
  // ---------------------------------------------------------------------

  /** `city.upper().startswith(filter_start_char.upper())`; `<=` is the prefix test. */
  predicate Matches(u: User, filterStart: string)
    ensures filterStart == [] ==> Matches(u, filterStart)
    ensures Matches(u, filterStart) ==> |filterStart| <= |City(u)|
  {
    Upper(filterStart) <= Upper(City(u))
  }

  /** The matching records, in input order. */
  function Matching(users: seq<User>, filterStart: string): (ms: seq<User>)
    ensures |ms| <= |users|
  {
    if users == [] then []
    else if Matches(users[0], filterStart) then [users[0]] + Matching(users[1..], filterStart)
    else Matching(users[1..], filterStart)
  }

  // ---------------------------------------------------------------------
  // Printed lines
  // ---------------------------------------------------------------------

  /** The two announcement lines and the rule, printed before anything else. */
  function Header(url: string, filterStart: string): (r: seq<string>)
    ensures |r| == 3
    ensures r[2] == Rule
  {
    [ "--- Client: Initiating GET request to " + url + " ---",
      "--- Constraint: " + "Filtering for cities starting with '" + filterStart + "' ---",
      Rule ]
  }

  /** The opening of both error lines. */
  const ErrorMark: string := "\U{274C} ERROR: "

  const HttpErrorPrefix: string := ErrorMark + "Received HTTP Status Error: "

  /** The status-error line; the code follows the prefix in decimal. */
  function HttpErrorLine(statusCode: nat): (r: string)
    ensures ErrorMark <= HttpErrorPrefix <= r
    ensures var n := |HttpErrorPrefix|;
      n + |NatToString(statusCode)| <= |r| &&
      r[n .. n + |NatToString(statusCode)|] == NatToString(statusCode)
  {
    HttpErrorPrefix + NatToString(statusCode) + ". Request failed."
  }

  const NetworkErrorPrefix: string := ErrorMark + "Network or Connection Failure. Details: "

  /** The network-failure line; it ends with the exception's text. */
  function NetworkErrorLine(details: string): (r: string)
    ensures ErrorMark <= NetworkErrorPrefix <= r
    ensures |details| <= |r| && r[|r| - |details|..] == details
  {
    NetworkErrorPrefix + details
  }

  const UserLinePrefix: string := "User "

  /** The six lines printed for the `index`-th matching record. */
  function Block(index: nat, u: User): (r: seq<string>)
    ensures |r| == 6 && r[5] == Separator
    ensures UserLinePrefix <= r[0] && |UserLinePrefix| + |NatToString(index)| < |r[0]|
    ensures r[0][|UserLinePrefix|..|r[0]| - 1] == NatToString(index)
  {
    [ UserLinePrefix + NatToString(index) + ":",
      "Name: " + Name(u),
      "Username: " + Username(u),
      "Email: " + Email(u),
      "City: " + City(u),
      Separator ]
  }

  /** The first line of a block is `User `, the number in decimal, and a colon. */
  lemma BlockFirstLine(index: nat, u: User)
    ensures Block(index, u)[0] == UserLinePrefix + NatToString(index) + ":"
  {
  }

  /** The blocks of `ms`, numbered from `start + 1` on. */
  function Render(ms: seq<User>, start: nat): (lines: seq<string>)
    ensures |lines| == 6 * |ms|
  {
    if ms == [] then [] else Block(start + 1, ms[0]) + Render(ms[1..], start + 1)
  }

  /** The opening of both summary lines (the `print` starts with a newline). */
  const SummaryMark: string := "\nResult: "

  function ZeroMatchLine(filterStart: string): (r: string)
    ensures SummaryMark <= r
    ensures |filterStart| + 2 <= |r| && r[|r| - |filterStart| - 2 ..] == filterStart + "'."
  {
    SummaryMark + "Zero records matched the city filter '" + filterStart + "'."
  }

  const DisplayedPrefix: string := SummaryMark + "Successfully processed and displayed "

  function DisplayedLine(count: nat): (r: string)
    ensures SummaryMark <= DisplayedPrefix <= r
    ensures var n := |DisplayedPrefix|;
      n + |NatToString(count)| <= |r| && r[n .. n + |NatToString(count)|] == NatToString(count)
  {
    DisplayedPrefix + NatToString(count) + " user records."
  }

  /** The final summary, chosen by the value of the counter. */
  function Summary(count: nat, filterStart: string): (r: string)
    ensures SummaryMark <= r
  {
    if count == 0 then ZeroMatchLine(filterStart) else DisplayedLine(count)
  }

  /**
   * Everything the procedure prints: the header, then the error line, the
   * empty-list line, or the numbered blocks of the matching records
   * followed by the summary.
   */
  function Report(url: string, filterStart: string, fetched: FetchOutcome): (r: seq<string>)
    ensures |r| >= 4 && r[..3] == Header(url, filterStart)
  {
    Header(url, filterStart) +
    match fetched
    case HttpError(code) => [HttpErrorLine(code)]
    case NetworkError(details) => [NetworkErrorLine(details)]
    case Ok(users) =>
      if users == [] then [EmptyResultLine]
      else
        var ms := Matching(users, filterStart);
        Render(ms, 0) + [Summary(|ms|, filterStart)]
  }

  // ---------------------------------------------------------------------
  // The procedure
  // ---------------------------------------------------------------------

  /**
   * The loop of `fetch_and_display_users`: walks the records in order,
   * bumps the 1-based counter on each match and emits that record's block.
   * The counter ends at the number of matching records and the lines are
   * the matching records' blocks, numbered 1 to that count.
   */
  method DisplayMatching(usersData: seq<User>, filterStartChar: string)
    returns (lines: seq<string>, recordIndex: nat)
    ensures recordIndex == |Matching(usersData, filterStartChar)| <= |usersData|
    ensures lines == Render(Matching(usersData, filterStartChar), 0)
  {
    lines := [];
    recordIndex := 0;
    for i := 0 to |usersData|
      invariant recordIndex == |Matching(usersData[..i], filterStartChar)|
      invariant lines == Render(Matching(usersData[..i], filterStartChar), 0)
    {
      var user := usersData[i];
      var city := City(user);
      DisplayStep(usersData, i, filterStartChar, lines, recordIndex);
      assert Matches(user, filterStartChar) == (Upper(filterStartChar) <= Upper(city));
      if Upper(filterStartChar) <= Upper(city) {
        recordIndex := recordIndex + 1;
        lines := lines + Block(recordIndex, user);
      }
    }
    TakeAll(usersData);
  }

  /**
   * `fetch_and_display_users(url, filter_start_char)` once the request has
   * produced `fetched`; `out` holds the printed lines in order.
   */
  method FetchAndDisplayUsers(url: string, filterStartChar: string, fetched: FetchOutcome)
    returns (out: seq<string>)
    ensures out == Report(url, filterStartChar, fetched)
  {
    out := Header(url, filterStartChar);
    var usersData: seq<User>;
    match fetched {
      case HttpError(code) =>
        out := out + [HttpErrorLine(code)];
        return;
      case NetworkError(details) =>
        out := out + [NetworkErrorLine(details)];
        return;
      case Ok(records) =>
        usersData := records;
    }

    if usersData == [] {
      out := out + [EmptyResultLine];
      return;
    }

    var blocks, recordIndex := DisplayMatching(usersData, filterStartChar);
    out := out + blocks;
    out := out + [Summary(recordIndex, filterStartChar)];
  }

  // ---------------------------------------------------------------------
  // The selection keeps input order
  // ---------------------------------------------------------------------

  /** Selecting from a concatenation selects from each part, in order. */
  lemma {:induction false} MatchingAppend(a: seq<User>, b: seq<User>, filterStart: string)
    ensures Matching(a + b, filterStart) == Matching(a, filterStart) + Matching(b, filterStart)
  {
    if a == [] {
      assert a + b == b;
    } else {
      assert (a + b)[1..] == a[1..] + b;
      MatchingAppend(a[1..], b, filterStart);
    }
  }

  /** The selection holds exactly the records of the input that match. */
  lemma {:induction false} MatchingMembers(users: seq<User>, filterStart: string)
    ensures forall u :: u in Matching(users, filterStart) <==> u in users && Matches(u, filterStart)
  {
    if users != [] {
      MatchingMembers(users[1..], filterStart);
      assert forall u :: u in users <==> u == users[0] || u in users[1..];
    }
  }

  /** Appending one record appends it to the selection exactly when it matches. */
  lemma MatchingSnoc(users: seq<User>, u: User, filterStart: string)
    ensures Matching(users + [u], filterStart) ==
      Matching(users, filterStart) + (if Matches(u, filterStart) then [u] else [])
  {
    MatchingAppend(users, [u], filterStart);
    assert [u][1..] == [];
  }

  /** Every record matches exactly when none is dropped. */
  lemma {:induction false} MatchingAll(users: seq<User>, filterStart: string)
    ensures Matching(users, filterStart) == users
        <==> forall j :: 0 <= j < |users| ==> Matches(users[j], filterStart)
  {
    if users != [] {
      MatchingAll(users[1..], filterStart);
      if !Matches(users[0], filterStart) {
        assert |Matching(users, filterStart)| < |users|;
      }
    }
  }

  // ---------------------------------------------------------------------
  // Numbering and block layout
  // ---------------------------------------------------------------------

  /** Rendering one more record appends one block, numbered after the others. */
  lemma {:induction false} RenderAppend(ms: seq<User>, m: User, start: nat)
    ensures Render(ms + [m], start) == Render(ms, start) + Block(start + |ms| + 1, m)
  {
    if ms == [] {
      assert ms + [m] == [m];
    } else {
      var first, last := Block(start + 1, ms[0]), Block(start + |ms| + 1, m);
      assert (ms + [m])[1..] == ms[1..] + [m];
      calc {
        Render(ms + [m], start);
        first + Render(ms[1..] + [m], start + 1);
        { RenderAppend(ms[1..], m, start + 1); }
        first + (Render(ms[1..], start + 1) + last);
        { ConcatAssoc(first, Render(ms[1..], start + 1), last); }
        (first + Render(ms[1..], start + 1)) + last;
      }
    }
  }

  /**
   * One turn of the procedure's loop: after one more record, the count of
   * matches grows by one and one block is appended exactly when it matches.
   */
  lemma RenderStep(users: seq<User>, u: User, filterStart: string)
    ensures var before := Matching(users, filterStart);
      var after := Matching(users + [u], filterStart);
      |after| == |before| + (if Matches(u, filterStart) then 1 else 0) &&
      Render(after, 0) ==
        Render(before, 0) + (if Matches(u, filterStart) then Block(|before| + 1, u) else [])
  {
    var before := Matching(users, filterStart);
    MatchingSnoc(users, u, filterStart);
    if Matches(u, filterStart) {
      RenderAppend(before, u, 0);
    } else {
      assert before + [] == before;
    }
  }

  /** The loop invariant of `DisplayMatching` survives one more record. */
  lemma DisplayStep(users: seq<User>, i: nat, filterStart: string, lines: seq<string>, count: nat)
    requires i < |users|
    requires count == |Matching(users[..i], filterStart)|
    requires lines == Render(Matching(users[..i], filterStart), 0)
    ensures var u, after := users[i], Matching(users[..i + 1], filterStart);
      if Matches(u, filterStart)
      then count + 1 == |after| && lines + Block(count + 1, u) == Render(after, 0)
      else count == |after| && lines == Render(after, 0)
  {
    TakeSnoc(users, i);
    RenderStep(users[..i], users[i], filterStart);
  }

  /** The `j`-th six lines of a rendering are the block of `ms[j]`, numbered `start + j + 1`. */
  lemma {:induction false} RenderBlockAt(ms: seq<User>, start: nat, j: nat)
    requires j < |ms|
    ensures Render(ms, start)[6 * j .. 6 * j + 6] == Block(start + j + 1, ms[j])
  {
    var first, rest := Block(start + 1, ms[0]), Render(ms[1..], start + 1);
    if j > 0 {
      RenderBlockAt(ms[1..], start + 1, j - 1);
      assert ms[1..][j - 1] == ms[j];
      SliceAfterBlock(first, rest, j, Block(start + j + 1, ms[j]));
    } else {
      SliceOfFirst(first, rest, 0, 6);
      TakeAll(first);
    }
  }

  /**
   * With a non-empty record list: the header, one six-line block per
   * matching record (in input order, numbered 1, 2, ..., k with k no
   * larger than the number of records), then the summary for k.
   */
  lemma ReportBlocks(url: string, filterStart: string, users: seq<User>)
    requires users != []
    ensures var ms := Matching(users, filterStart);
      var out := Report(url, filterStart, Ok(users));
      |ms| <= |users| &&
      |out| == 3 + 6 * |ms| + 1 &&
      out[..3] == Header(url, filterStart) &&
      (forall j :: 0 <= j < |ms| ==> out[3 + 6 * j .. 3 + 6 * j + 6] == Block(j + 1, ms[j])) &&
      out[|out| - 1] == Summary(|ms|, filterStart)
  {
    var ms := Matching(users, filterStart);
    var header, body, tail := Header(url, filterStart), Render(ms, 0), [Summary(|ms|, filterStart)];
    ReportOkShape(url, filterStart, users);
    TakeOfConcat(header, body + tail);
    forall j | 0 <= j < |ms|
      ensures (header + (body + tail))[3 + 6 * j .. 3 + 6 * j + 6] == Block(j + 1, ms[j])
    {
      ReportBlockAt(url, filterStart, users, j);
    }
  }

  /** The non-empty case of `Report`, as three parts. */
  lemma ReportOkShape(url: string, filterStart: string, users: seq<User>)
    requires users != []
    ensures var ms := Matching(users, filterStart);
      Report(url, filterStart, Ok(users)) ==
        Header(url, filterStart) + (Render(ms, 0) + [Summary(|ms|, filterStart)])
  {
  }

  /** The `j`-th block of a non-empty report sits at line `3 + 6 * j`. */
  lemma ReportBlockAt(url: string, filterStart: string, users: seq<User>, j: nat)
    requires users != [] && j < |Matching(users, filterStart)|
    ensures var ms := Matching(users, filterStart);
      var out := Report(url, filterStart, Ok(users));
      3 + 6 * j + 6 <= |out| && out[3 + 6 * j .. 3 + 6 * j + 6] == Block(j + 1, ms[j])
  {
    var ms := Matching(users, filterStart);
    ReportOkShape(url, filterStart, users);
    BlockAfterHeader(Header(url, filterStart), ms, [Summary(|ms|, filterStart)], j);
  }

  /** Behind three header lines, the `j`-th block starts at line `3 + 6 * j`. */
  lemma BlockAfterHeader(header: seq<string>, ms: seq<User>, tail: seq<string>, j: nat)
    requires |header| == 3 && j < |ms|
    ensures var out := header + (Render(ms, 0) + tail);
      3 + 6 * j + 6 <= |out| && out[3 + 6 * j .. 3 + 6 * j + 6] == Block(j + 1, ms[j])
  {
    RenderBlockAt(ms, 0, j);
    SliceOfMiddle(header, Render(ms, 0), tail, 3 + 6 * j, 3 + 6 * j + 6);
  }

  /**
   * Inside the `j`-th block, each field line shows the record's value when
   * the key is present and `N/A` when it is missing; the city reads `N/A`
   * when either `address` or `address.city` is missing.
   */
  lemma ReportFieldDefaults(url: string, filterStart: string, users: seq<User>, j: nat)
    requires users != [] && j < |Matching(users, filterStart)|
    ensures var u := Matching(users, filterStart)[j];
      var out := Report(url, filterStart, Ok(users));
      var b := 3 + 6 * j;
      b + 5 < |out| &&
      out[b + 1] == "Name: " + (if u.name.Some? then u.name.value else "N/A") &&
      out[b + 2] == "Username: " + (if u.username.Some? then u.username.value else "N/A") &&
      out[b + 3] == "Email: " + (if u.email.Some? then u.email.value else "N/A") &&
      out[b + 4] == "City: " +
        (if u.address.Some? && u.address.value.city.Some? then u.address.value.city.value else "N/A")
  {
    ReportBlockAt(url, filterStart, users, j);
    var u := Matching(users, filterStart)[j];
    var out := Report(url, filterStart, Ok(users));
    var b := 3 + 6 * j;
    var block := Block(j + 1, u);
    assert out[b .. b + 6] == block;
    assert out[b + 1] == block[1] && out[b + 2] == block[2];
    assert out[b + 3] == block[3] && out[b + 4] == block[4];
  }


  // ---------------------------------------------------------------------
  // Slices of concatenations
  // ---------------------------------------------------------------------

  lemma ConcatAssoc<T>(a: seq<T>, b: seq<T>, c: seq<T>)
    ensures a + (b + c) == (a + b) + c
  {
  }

  lemma TakeSnoc<T>(s: seq<T>, i: nat)
    requires i < |s|
    ensures s[..i + 1] == s[..i] + [s[i]]
  {
  }

  lemma TakeAll<T>(s: seq<T>)
    ensures s[..|s|] == s
  {
  }

  lemma TakeOfConcat<T>(a: seq<T>, b: seq<T>)
    ensures (a + b)[..|a|] == a
  {
  }

  lemma SliceOfFirst<T>(a: seq<T>, b: seq<T>, i: nat, k: nat)
    requires i <= k <= |a|
    ensures (a + b)[i..k] == a[i..k]
  {
  }

  lemma SliceAfterBlock<T>(first: seq<T>, rest: seq<T>, j: nat, x: seq<T>)
    requires |first| == 6 && 0 < j && 6 * j <= |rest| && rest[6 * (j - 1) .. 6 * j] == x
    ensures (first + rest)[6 * j .. 6 * j + 6] == x
  {
    SliceOfSecond(first, rest, 6 * j, 6 * j + 6);
  }

  lemma SliceOfMiddle<T>(a: seq<T>, b: seq<T>, c: seq<T>, i: nat, k: nat)
    requires |a| <= i <= k <= |a| + |b|
    ensures (a + (b + c))[i..k] == b[i - |a| .. k - |a|]
  {
    SliceOfSecond(a, b + c, i, k);
    SliceOfFirst(b, c, i - |a|, k - |a|);
  }

  lemma SliceOfSecond<T>(a: seq<T>, b: seq<T>, i: nat, k: nat)
    requires |a| <= i <= k <= |a| + |b|
    ensures (a + b)[i..k] == b[i - |a| .. k - |a|]
  {
  }

  // ---------------------------------------------------------------------
  // Counting "User N:" lines
  // ---------------------------------------------------------------------

  /** The number of printed lines that open a user block. */
  function CountUserLines(lines: seq<string>): nat
  {
    if lines == [] then 0
    else (if UserLinePrefix <= lines[0] then 1 else 0) + CountUserLines(lines[1..])
  }

  lemma {:induction false} CountUserLinesAppend(a: seq<string>, b: seq<string>)
    ensures CountUserLines(a + b) == CountUserLines(a) + CountUserLines(b)
  {
    if a == [] {
      assert a + b == b;
    } else {
      assert (a + b)[1..] == a[1..] + b;
      CountUserLinesAppend(a[1..], b);
    }
  }

  /** A line that differs from "User " in one of its first five characters opens no block. */
  lemma NotUserLine(line: string, k: nat)
    requires k < 5 && k < |line| && line[k] != UserLinePrefix[k]
    ensures !(UserLinePrefix <= line)
  {
  }

  /** Lines none of which opens a block count zero. */
  lemma {:induction false} NoUserLines(lines: seq<string>)
    requires forall i :: 0 <= i < |lines| ==> !(UserLinePrefix <= lines[i])
    ensures CountUserLines(lines) == 0
  {
    if lines != [] {
      NoUserLines(lines[1..]);
    }
  }

  lemma BlockHasOneUserLine(index: nat, u: User)
    ensures CountUserLines(Block(index, u)) == 1
  {
    var b := Block(index, u);
    NotUserLine(b[1], 0);
    NotUserLine(b[2], 4);
    NotUserLine(b[3], 0);
    NotUserLine(b[4], 0);
    NotUserLine(b[5], 0);
    NoUserLines(b[1..]);
  }

  lemma {:induction false} RenderUserLines(ms: seq<User>, start: nat)
    ensures CountUserLines(Render(ms, start)) == |ms|
  {
    if ms != [] {
      BlockHasOneUserLine(start + 1, ms[0]);
      RenderUserLines(ms[1..], start + 1);
      CountUserLinesAppend(Block(start + 1, ms[0]), Render(ms[1..], start + 1));
    }
  }

  lemma HeaderHasNoUserLine(url: string, filterStart: string)
    ensures CountUserLines(Header(url, filterStart)) == 0
  {
    var h := Header(url, filterStart);
    NotUserLine(h[0], 0);
    NotUserLine(h[1], 0);
    NotUserLine(h[2], 0);
    NoUserLines(h);
  }

  /**
   * The number of printed "User N:" lines is the number of records whose
   * upper-cased city starts with the upper-cased filter, and zero when the
   * request failed or returned no records.
   */
  lemma ReportUserLineCount(url: string, filterStart: string, fetched: FetchOutcome)
    ensures CountUserLines(Report(url, filterStart, fetched)) ==
      if fetched.Ok? then |Matching(fetched.records, filterStart)| else 0
  {
    var h := Header(url, filterStart);
    HeaderHasNoUserLine(url, filterStart);
    match fetched
    case HttpError(code) =>
      CountUserLinesAppend(h, [HttpErrorLine(code)]);
      assert HttpErrorLine(code)[0] != 'U';
    case NetworkError(details) =>
      CountUserLinesAppend(h, [NetworkErrorLine(details)]);
      assert NetworkErrorLine(details)[0] != 'U';
    case Ok(users) =>
      if users == [] {
        CountUserLinesAppend(h, [EmptyResultLine]);
        assert EmptyResultLine[0] != 'U';
      } else {
        var ms := Matching(users, filterStart);
        var s := Summary(|ms|, filterStart);
        RenderUserLines(ms, 0);
        assert s[0] == '\n';
        CountUserLinesAppend(h, Render(ms, 0) + [s]);
        CountUserLinesAppend(Render(ms, 0), [s]);
        assert Report(url, filterStart, fetched) == h + (Render(ms, 0) + [s]);
      }
  }

  // ---------------------------------------------------------------------
  // Early exits and the summary
  // ---------------------------------------------------------------------

  /** An empty record list prints the header and the empty-list line, and nothing else. */
  lemma ReportEmpty(url: string, filterStart: string)
    ensures Report(url, filterStart, Ok([])) == Header(url, filterStart) + [EmptyResultLine]
    ensures CountUserLines(Report(url, filterStart, Ok([]))) == 0
  {
    ReportUserLineCount(url, filterStart, Ok([]));
  }

  /**
   * A status error prints the header and one error line, which carries the
   * exact status code in decimal, and nothing else.
   */
  lemma ReportHttpError(url: string, filterStart: string, code: nat)
    ensures var out := Report(url, filterStart, HttpError(code));
      var digits := NatToString(code);
      var p := |HttpErrorPrefix|;
      out == Header(url, filterStart) + [HttpErrorLine(code)] &&
      p + |digits| <= |out[3]| &&
      out[3][p .. p + |digits|] == digits &&
      ParseDecimal(out[3][p .. p + |digits|]) == code &&
      CountUserLines(out) == 0
  {
    ParseNatToString(code);
    ReportUserLineCount(url, filterStart, HttpError(code));
  }

  /** A network failure prints the header and one error line ending in the failure's details. */
  lemma ReportNetworkError(url: string, filterStart: string, details: string)
    ensures var out := Report(url, filterStart, NetworkError(details));
      out == Header(url, filterStart) + [NetworkErrorLine(details)] &&
      out[3][|NetworkErrorPrefix|..] == details &&
      CountUserLines(out) == 0
  {
    ReportUserLineCount(url, filterStart, NetworkError(details));
  }

  /**
   * The summary is the "Zero records matched" line exactly when the counter
   * is zero; otherwise it carries the counter's value in decimal.
   */
  lemma SummaryAgreesWithCounter(count: nat, filterStart: string)
    ensures Summary(count, filterStart) == ZeroMatchLine(filterStart) <==> count == 0
    ensures count > 0 ==>
      var digits := NatToString(count);
      var s := Summary(count, filterStart);
      var p := |DisplayedPrefix|;
      p + |digits| <= |s| && ParseDecimal(s[p .. p + |digits|]) == count
  {
    if count > 0 {
      ParseNatToString(count);
      assert ZeroMatchLine(filterStart)[|SummaryMark|] != DisplayedLine(count)[|SummaryMark|];
    }
  }

  // ---------------------------------------------------------------------
  // The filter predicate
  // ---------------------------------------------------------------------

  /** Upper-casing the filter first changes nothing: the test ignores case. */
  lemma MatchesIgnoresFilterCase(u: User, filterStart: string)
    ensures Matches(u, Upper(filterStart)) <==> Matches(u, filterStart)
  {
    UpperIdempotent(filterStart);
  }

  /**
   * A record matches exactly when some string follows the upper-cased
   * filter to give the upper-cased city: a prefix test, neither a
   * substring nor an equality test.
   */
  lemma MatchesIsPrefixTest(u: User, filterStart: string)
    ensures Matches(u, filterStart) <==>
      exists rest: string :: Upper(City(u)) == Upper(filterStart) + rest
  {
    var p, c := Upper(filterStart), Upper(City(u));
    if p <= c {
      PrefixSplit(p, c);
      assert c == p + c[|p|..];
    }
    if exists rest: string :: c == p + rest {
      var rest: string :| c == p + rest;
      ConcatHasPrefix(p, rest);
      assert Upper(City(u)) == Upper(filterStart) + rest;
      assert p <= c;
    }
  }

  lemma PrefixSplit<T>(p: seq<T>, s: seq<T>)
    requires p <= s
    ensures s == p + s[|p|..]
  {
  }

  lemma ConcatHasPrefix<T>(p: seq<T>, rest: seq<T>)
    ensures p <= p + rest
  {
  }

  /**
   * A record without a city (no `address`, or no `address.city`) matches
   * exactly when the upper-cased filter is a prefix of "N/A"; with the
   * filter "N" it is displayed.
   */
  lemma MissingCityMatches(u: User, filterStart: string)
    requires u.address.None? || u.address.value.city.None?
    ensures City(u) == "N/A"
    ensures Matches(u, filterStart) <==> Upper(filterStart) <= "N/A"
    ensures Matches(u, "N") && Matches(u, "n")
  {
  }

  /** The first letter alone decides a match when the filter is one character. */
  lemma MatchesOneLetter(u: User, letter: char)
    requires |City(u)| > 0
    ensures Matches(u, [letter]) <==> UpperChar(City(u)[0]) == UpperChar(letter)
  {
  }

  // ---------------------------------------------------------------------
  // A worked instance
  // ---------------------------------------------------------------------

  /**
   * Four records whose cities start with S, D, S and O (Springfield,
   * Denver, Seattle and Omaha, say), filtered by "S": two blocks, numbered
   * 1 for the first record and 2 for the third, and a summary reporting
   * two records.
   */
  lemma FourCitiesExample(url: string, users: seq<User>)
    requires |users| == 4
    requires forall k :: 0 <= k < 4 ==> |City(users[k])| > 0
    requires City(users[0])[0] == 'S' && City(users[1])[0] == 'D'
    requires City(users[2])[0] == 'S' && City(users[3])[0] == 'O'
    ensures var out := Report(url, "S", Ok(users));
      Matching(users, "S") == [users[0], users[2]] &&
      out == Header(url, "S") + Block(1, users[0]) + Block(2, users[2]) + [DisplayedLine(2)] &&
      CountUserLines(out) == 2
  {
    MatchesOneLetter(users[0], 'S');
    MatchesOneLetter(users[1], 'S');
    MatchesOneLetter(users[2], 'S');
    MatchesOneLetter(users[3], 'S');
    assert Matching(users[3..], "S") == [];
    assert Matching(users[2..], "S") == [users[2]];
    assert Matching(users[1..], "S") == [users[2]];
    var ms := [users[0], users[2]];
    assert Matching(users, "S") == ms;
    assert Render(ms, 0) == Block(1, users[0]) + Render([users[2]], 1);
    assert Render([users[2]], 1) == Block(2, users[2]) + Render([], 2);
    ReportUserLineCount(url, "S", Ok(users));
  }
}
