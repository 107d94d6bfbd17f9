/** The reader of `birdc show route` output: parse_bird_routes turns the text
    dump into route records, one per line that begins with a digit, taking
    next hop and interface from a `via …` or `dev …` line that follows it. */
module RouteParser {
  import opened Text

  /** The marker glyph of a route line: '*' (primary), '!' (problem) or none. */
  datatype Status = Primary | Problem | Unmarked {
    /** The value stored in the `status` field. */
    function Glyph(): string {
      match this
      case Primary => "*"
      case Problem => "!"
      case Unmarked => ""
    }
  }

  /** One route dictionary: `type` is called `kind` here; `metric`, `next_hop`
      and `interface` are None when the dump does not give them. */
  datatype Route = Route(
    destination: string,
    kind: string,
    protocol: string,
    status: Status,
    metric: Option<nat>,
    nextHop: Option<string>,
    iface: Option<string>,
    container: string)

  /** The list of routes, or the index of the line whose missing field makes
      the source raise IndexError. */
  datatype ParseResult = Parsed(routes: seq<Route>) | Malformed(line: nat)

  /** What the line after a record line adds to it. */
  datatype Continuation =
    | Via(gateway: string, device: Option<string>)
    | Dev(link: string)
    | NotContinuation
    | ShortContinuation   // a `via`/`dev` line with a single field

  const Brackets: set<char> := {'[', ']'}

  /** Banner and table-name lines (after strip). */
  predicate IsBanner(line: string) {
    StartsWith(line, "BIRD") || StartsWith(line, "Table")
  }

  /** A stripped line that opens a record. */
  predicate StartsRecord(line: string) {
    |line| > 0 && IsDigit(line[0])
  }

  function StatusOf(line: string): Status {
    if '*' in line then Primary else if '!' in line then Problem else Unmarked
  }

  /** The record a start line gives before its continuation is looked at, or
      None when the line has fewer than three fields. */
  function RecordHead(line: string, container: string): Option<Route> {
    var parts := Fields(line);
    if |parts| < 3 then None
    else Some(Route(parts[0], parts[1], StripChars(parts[2], Brackets), StatusOf(line),
                    Metric(line), None, None, container))
  }

  /** Classifies a stripped line as a continuation. */
  function ContinuationOf(next: string): Continuation {
    if StartsWith(next, "via") then
      var parts := Fields(next);
      if |parts| < 2 then ShortContinuation
      else Via(parts[1], if |parts| > 3 then Some(parts[3]) else None)
    else if StartsWith(next, "dev") then
      var parts := Fields(next);
      if |parts| < 2 then ShortContinuation else Dev(parts[1])
    else NotContinuation
  }

  /** The continuation after line i, if there is a line after it. */
  function Lookahead(lines: seq<string>, i: nat): Continuation {
    if i + 1 < |lines| then ContinuationOf(Strip(lines[i + 1])) else NotContinuation
  }

  function Attach(r: Route, k: Continuation): Route {
    match k
    case Via(gateway, device) => r.(nextHop := Some(gateway), iface := device)
    case Dev(link) => r.(iface := Some(link))
    case _ => r
  }

  function Prepend(rs: seq<Route>, res: ParseResult): ParseResult {
    match res
    case Parsed(tail) => Parsed(rs + tail)
    case Malformed(j) => Malformed(j)
  }

  lemma PrependTwice(a: seq<Route>, b: seq<Route>, res: ParseResult)
    ensures Prepend(a, Prepend(b, res)) == Prepend(a + b, res)
  {
    if res.Parsed? {
      assert a + (b + res.routes) == (a + b) + res.routes;
    }
  }

  /** The parse of lines[i..]. */
  function ParseFrom(lines: seq<string>, i: nat, container: string): ParseResult
    decreases |lines| - i
  {
    if i >= |lines| then Parsed([])
    else
      var line := Strip(lines[i]);
      if IsBanner(line) || !StartsRecord(line) then ParseFrom(lines, i + 1, container)
      else
        match RecordHead(line, container)
        case None => Malformed(i)
        case Some(head) =>
          var k := Lookahead(lines, i);
          if k.ShortContinuation? then Malformed(i + 1)
          else
            var next := if k.NotContinuation? then i + 1 else i + 2;
            Prepend([Attach(head, k)], ParseFrom(lines, next, container))
  }

  lemma ParseSkips(lines: seq<string>, i: nat, container: string)
    requires i < |lines| && (IsBanner(Strip(lines[i])) || !StartsRecord(Strip(lines[i])))
    ensures ParseFrom(lines, i, container) == ParseFrom(lines, i + 1, container)
  {
  }

  lemma ParseStops(lines: seq<string>, i: nat, container: string)
    requires i < |lines| && StartsRecord(Strip(lines[i]))
    requires RecordHead(Strip(lines[i]), container).None? || Lookahead(lines, i).ShortContinuation?
    ensures ParseFrom(lines, i, container)
         == Malformed(if RecordHead(Strip(lines[i]), container).None? then i else i + 1)
  {
    assert !IsBanner(Strip(lines[i]));
  }

  lemma ParseTakes(lines: seq<string>, i: nat, container: string)
    requires i < |lines| && StartsRecord(Strip(lines[i]))
    requires RecordHead(Strip(lines[i]), container).Some? && !Lookahead(lines, i).ShortContinuation?
    ensures var k := Lookahead(lines, i);
      ParseFrom(lines, i, container)
        == Prepend([Attach(RecordHead(Strip(lines[i]), container).value, k)],
                   ParseFrom(lines, if k.NotContinuation? then i + 1 else i + 2, container))
  {
    assert !IsBanner(Strip(lines[i]));
  }

  /** The parse of a whole dump, split at '\n' as the source does. */
  function ParseRoutes(output: string, container: string): ParseResult {
    ParseFrom(SplitOn(output, '\n'), 0, container)
  }

  /** The route dictionary built from a record line, with its metric; None
      where indexing the second or third field raises IndexError. */
  method BuildRoute(line: string, container: string) returns (route: Option<Route>)
    ensures route == RecordHead(line, container)
    ensures route.Some? ==> route.value.nextHop.None? && route.value.iface.None?
  {
    var parts := Fields(line);
    if |parts| < 3 {
      return None;
    }
    var r := Route(parts[0], parts[1], StripChars(parts[2], Brackets), StatusOf(line),
                   None, None, None, container);
    var metric := Metric(line);
    if metric.Some? {
      r := r.(metric := metric);
    }
    route := Some(r);
  }

  /** The lookahead at the stripped line after a record line: a `via` line
      gives the next hop (field 1) and, with more than three fields, the
      interface (field 3); a `dev` line gives the interface (field 1). */
  method ReadContinuation(next: string) returns (k: Continuation)
    ensures k == ContinuationOf(next)
  {
    if StartsWith(next, "via") {
      var via := Fields(next);
      if |via| < 2 {
        return ShortContinuation;
      }
      var device := None;
      if |via| > 3 {
        device := Some(via[3]);
      }
      k := Via(via[1], device);
    } else if StartsWith(next, "dev") {
      var dev := Fields(next);
      if |dev| < 2 {
        return ShortContinuation;
      }
      k := Dev(dev[1]);
    } else {
      k := NotContinuation;
    }
  }

  /** What one pass of the loop body does at line i. */
  datatype LineStep = Skip | Stop(at: nat) | Take(route: Route, next: nat)

  /** One pass of the loop body of parse_bird_routes at line i: skip the
      line, raise at a line, or build a route and name the next line to
      look at. */
  method ReadLine(lines: seq<string>, i: nat, container: string) returns (step: LineStep)
    requires i < |lines|
    ensures step.Skip? ==> ParseFrom(lines, i, container) == ParseFrom(lines, i + 1, container)
    ensures step.Stop? ==> ParseFrom(lines, i, container) == Malformed(step.at)
    ensures step.Take? ==>
              i < step.next <= |lines| &&
              ParseFrom(lines, i, container) == Prepend([step.route], ParseFrom(lines, step.next, container))
  {
    var line := Strip(lines[i]);
    if IsBanner(line) || !(|line| > 0 && IsDigit(line[0])) {
      ParseSkips(lines, i, container);
      return Skip;
    }
    var built := BuildRoute(line, container);
    if built.None? {
      ParseStops(lines, i, container);
      return Stop(i);
    }
    var route := built.value;
    var next := i + 1;
    if i + 1 < |lines| {
      var k := ReadContinuation(Strip(lines[i + 1]));
      match k {
        case ShortContinuation =>
          ParseStops(lines, i, container);
          return Stop(i + 1);
        case Via(gateway, device) =>
          route := route.(nextHop := Some(gateway), iface := device);
          next := i + 2;
        case Dev(link) =>
          route := route.(iface := Some(link));
          next := i + 2;
        case NotContinuation =>
      }
    }
    assert route == Attach(built.value, Lookahead(lines, i));
    ParseTakes(lines, i, container);
    step := Take(route, next);
  }

  /** parse_bird_routes: the loop over the lines, with one line of lookahead. */
  method ParseBirdRoutes(output: string, container: string) returns (result: ParseResult)
    ensures result == ParseRoutes(output, container)
  {
    var lines := SplitOn(output, '\n');
    var routes: seq<Route> := [];
    var i := 0;
    ghost var whole := ParseFrom(lines, 0, container);
    while i < |lines|
      invariant i <= |lines|
      invariant whole == Prepend(routes, ParseFrom(lines, i, container))
      decreases |lines| - i
    {
      var step := ReadLine(lines, i, container);
      match step {
        case Skip =>
          i := i + 1;
        case Stop(at) =>
          return Malformed(at);
        case Take(route, next) =>
          PrependTwice(routes, [route], ParseFrom(lines, next, container));
          routes := routes + [route];
          i := next;
      }
    }
    result := Parsed(routes);
  }

  // ---------------------------------------------------------------------------
  // What the parse yields, stated line by line

  /** The indices, from i on, of the lines that open a record. */
  function RecordLines(lines: seq<string>, i: nat): seq<nat>
    decreases |lines| - i
  {
    if i >= |lines| then []
    else (if StartsRecord(Strip(lines[i])) then [i] else []) + RecordLines(lines, i + 1)
  }

  lemma RecordLinesSpec(lines: seq<string>, i: nat)
    ensures var idx := RecordLines(lines, i);
      && |idx| <= (if i <= |lines| then |lines| - i else 0)
      && (forall k | 0 <= k < |idx| :: i <= idx[k] < |lines| && StartsRecord(Strip(lines[idx[k]])))
      && (forall k, k' | 0 <= k < k' < |idx| :: idx[k] < idx[k'])
      && (forall j | i <= j < |lines| && StartsRecord(Strip(lines[j])) :: j in idx)
  {
    RecordLinesBound(lines, i);
    RecordLinesAreRecords(lines, i);
    RecordLinesIncreasing(lines, i);
    RecordLinesComplete(lines, i);
  }

  /** The first step of RecordLines. */
  lemma RecordLinesCons(lines: seq<string>, i: nat)
    requires i < |lines|
    ensures StartsRecord(Strip(lines[i])) ==> RecordLines(lines, i) == [i] + RecordLines(lines, i + 1)
    ensures !StartsRecord(Strip(lines[i])) ==> RecordLines(lines, i) == RecordLines(lines, i + 1)
  {
  }

  lemma {:induction false} RecordLinesBound(lines: seq<string>, i: nat)
    ensures |RecordLines(lines, i)| <= (if i <= |lines| then |lines| - i else 0)
    decreases |lines| - i
  {
    if i < |lines| {
      RecordLinesBound(lines, i + 1);
      RecordLinesCons(lines, i);
      var rest := RecordLines(lines, i + 1);
      assert |RecordLines(lines, i)| <= |rest| + 1;
    } else {
      assert RecordLines(lines, i) == [];
    }
  }

  lemma {:induction false} RecordLinesAreRecords(lines: seq<string>, i: nat)
    ensures var idx := RecordLines(lines, i);
      forall k | 0 <= k < |idx| :: i <= idx[k] < |lines| && StartsRecord(Strip(lines[idx[k]]))
    decreases |lines| - i
  {
    if i < |lines| {
      RecordLinesAreRecords(lines, i + 1);
      RecordLinesCons(lines, i);
      var idx, rest := RecordLines(lines, i), RecordLines(lines, i + 1);
      if StartsRecord(Strip(lines[i])) {
        assert forall k | 1 <= k < |idx| :: idx[k] == rest[k - 1];
      }
    }
  }

  lemma {:induction false} RecordLinesInRange(lines: seq<string>, i: nat)
    ensures var idx := RecordLines(lines, i); forall k | 0 <= k < |idx| :: i <= idx[k] < |lines|
    decreases |lines| - i
  {
    if i < |lines| {
      RecordLinesInRange(lines, i + 1);
      RecordLinesCons(lines, i);
      var idx, rest := RecordLines(lines, i), RecordLines(lines, i + 1);
      if StartsRecord(Strip(lines[i])) {
        assert forall k | 1 <= k < |idx| :: idx[k] == rest[k - 1];
      }
    }
  }

  lemma {:induction false} RecordLinesIncreasing(lines: seq<string>, i: nat)
    ensures Increasing(RecordLines(lines, i))
    decreases |lines| - i
  {
    if i < |lines| {
      RecordLinesIncreasing(lines, i + 1);
      RecordLinesInRange(lines, i + 1);
      RecordLinesCons(lines, i);
      if StartsRecord(Strip(lines[i])) {
        ConsIncreasing(i, RecordLines(lines, i + 1));
      }
    }
  }

  predicate Increasing(s: seq<nat>) {
    forall k, k' | 0 <= k < k' < |s| :: s[k] < s[k']
  }

  lemma ConsIncreasing(i: nat, rest: seq<nat>)
    requires Increasing(rest) && forall k | 0 <= k < |rest| :: i < rest[k]
    ensures Increasing([i] + rest)
  {
    var s := [i] + rest;
    forall k, k' | 0 <= k < k' < |s| ensures s[k] < s[k'] {
      assert s[k'] == rest[k' - 1];
      if k > 0 {
        assert s[k] == rest[k - 1];
      }
    }
  }

  lemma {:induction false} RecordLinesComplete(lines: seq<string>, i: nat)
    ensures forall j | i <= j < |lines| && StartsRecord(Strip(lines[j])) :: j in RecordLines(lines, i)
    decreases |lines| - i
  {
    if i < |lines| {
      RecordLinesComplete(lines, i + 1);
      RecordLinesCons(lines, i);
    }
  }

  /** The continuation line a record line j is followed by, if any. */
  predicate HasContinuation(lines: seq<string>, j: nat) {
    j + 1 < |lines| && (StartsWith(Strip(lines[j + 1]), "via") || StartsWith(Strip(lines[j + 1]), "dev"))
  }

  /** Route r is what record line j says, read field by field. */
  ghost predicate Describes(lines: seq<string>, j: nat, container: string, r: Route)
    requires j < |lines|
  {
    var line := Strip(lines[j]);
    var f := Fields(line);
    && |f| >= 3
    && r.destination == f[0]
    && r.kind == f[1]
    && r.protocol == StripChars(f[2], Brackets)
    && (r.status == Primary <==> '*' in line)
    && (r.status == Problem <==> '*' !in line && '!' in line)
    && r.metric == Metric(line)
    && r.container == container
    && if HasContinuation(lines, j) && StartsWith(Strip(lines[j + 1]), "via") then
         var g := Fields(Strip(lines[j + 1]));
         |g| >= 2 && r.nextHop == Some(g[1]) && r.iface == (if |g| > 3 then Some(g[3]) else None)
       else if HasContinuation(lines, j) then
         var g := Fields(Strip(lines[j + 1]));
         |g| >= 2 && r.nextHop == None && r.iface == Some(g[1])
       else
         r.nextHop == None && r.iface == None
  }

  /** The record built at a record line describes that line. */
  lemma HeadDescribes(lines: seq<string>, i: nat, container: string)
    requires i < |lines| && RecordHead(Strip(lines[i]), container).Some?
    requires !Lookahead(lines, i).ShortContinuation?
    ensures Describes(lines, i, container,
                      Attach(RecordHead(Strip(lines[i]), container).value, Lookahead(lines, i)))
  {
    var line := Strip(lines[i]);
    var f := Fields(line);
    var head := RecordHead(line, container).value;
    assert head.destination == f[0] && head.kind == f[1] && head.protocol == StripChars(f[2], Brackets);
    assert head.status == StatusOf(line) && head.metric == Metric(line) && head.container == container;
    var k := Lookahead(lines, i);
    var r := Attach(head, k);
    assert r.destination == f[0] && r.kind == f[1] && r.protocol == StripChars(f[2], Brackets);
    assert r.status == StatusOf(line) && r.metric == Metric(line) && r.container == container;
    if HasContinuation(lines, i) && StartsWith(Strip(lines[i + 1]), "via") {
      assert k.Via?;
    } else if HasContinuation(lines, i) {
      assert k.Dev?;
    } else {
      assert k.NotContinuation?;
    }
  }

  /** Every record line has three fields and every continuation after one has two. */
  ghost predicate WellFormedFrom(lines: seq<string>, i: nat) {
    forall j | i <= j < |lines| && StartsRecord(Strip(lines[j])) ::
      && |Fields(Strip(lines[j]))| >= 3
      && (HasContinuation(lines, j) ==> |Fields(Strip(lines[j + 1]))| >= 2)
  }

  lemma BannerIsNotRecord(line: string)
    ensures IsBanner(line) ==> !StartsRecord(line)
    ensures StartsWith(line, "via") || StartsWith(line, "dev") ==> !StartsRecord(line)
  {
  }

  /** The condition WellFormedFrom puts on line j alone. */
  ghost predicate WellFormedAt(lines: seq<string>, j: nat)
    requires j < |lines|
  {
    StartsRecord(Strip(lines[j])) ==>
      && |Fields(Strip(lines[j]))| >= 3
      && (HasContinuation(lines, j) ==> |Fields(Strip(lines[j + 1]))| >= 2)
  }

  lemma WellFormedStep(lines: seq<string>, i: nat)
    requires i < |lines|
    ensures WellFormedFrom(lines, i) <==> WellFormedAt(lines, i) && WellFormedFrom(lines, i + 1)
  {
    if WellFormedAt(lines, i) && WellFormedFrom(lines, i + 1) {
      forall j | i <= j < |lines| && StartsRecord(Strip(lines[j]))
        ensures |Fields(Strip(lines[j]))| >= 3 && (HasContinuation(lines, j) ==> |Fields(Strip(lines[j + 1]))| >= 2)
      {
        if j == i {
          assert WellFormedAt(lines, i);
        }
      }
    }
  }

  /** A continuation line is no record line, so WellFormedFrom may skip it. */
  lemma WellFormedSkipsContinuation(lines: seq<string>, i: nat)
    requires HasContinuation(lines, i)
    ensures WellFormedFrom(lines, i + 1) <==> WellFormedFrom(lines, i + 2)
  {
    BannerIsNotRecord(Strip(lines[i + 1]));
    WellFormedStep(lines, i + 1);
  }

  /** The parse fails exactly when some record line is short of fields. */
  lemma {:induction false} ParsedIffWellFormed(lines: seq<string>, i: nat, container: string)
    ensures ParseFrom(lines, i, container).Parsed? <==> WellFormedFrom(lines, i)
    decreases |lines| - i
  {
    if i < |lines| {
      var line := Strip(lines[i]);
      BannerIsNotRecord(line);
      WellFormedStep(lines, i);
      if IsBanner(line) || !StartsRecord(line) {
        ParseSkips(lines, i, container);
        ParsedIffWellFormed(lines, i + 1, container);
      } else if RecordHead(line, container).None? {
        ParseStops(lines, i, container);
      } else {
        var k := Lookahead(lines, i);
        if k.ShortContinuation? {
          ParseStops(lines, i, container);
          assert HasContinuation(lines, i);
        } else {
          ParseTakes(lines, i, container);
          var next := if k.NotContinuation? then i + 1 else i + 2;
          ParsedIffWellFormed(lines, next, container);
          if k.NotContinuation? {
            assert !HasContinuation(lines, i);
          } else {
            assert HasContinuation(lines, i);
            WellFormedSkipsContinuation(lines, i);
          }
        }
      }
    }
  }

  /** Route r is what record line j says, for each pair of idx and rs. */
  ghost predicate AllDescribe(lines: seq<string>, container: string, idx: seq<nat>, rs: seq<Route>) {
    |rs| == |idx| && forall k | 0 <= k < |rs| :: idx[k] < |lines| && Describes(lines, idx[k], container, rs[k])
  }

  lemma AllDescribeCons(lines: seq<string>, container: string, j: nat, r: Route, idx: seq<nat>, rs: seq<Route>)
    requires j < |lines| && Describes(lines, j, container, r) && AllDescribe(lines, container, idx, rs)
    ensures AllDescribe(lines, container, [j] + idx, [r] + rs)
  {
    var idx', rs' := [j] + idx, [r] + rs;
    forall k | 0 <= k < |rs'| ensures idx'[k] < |lines| && Describes(lines, idx'[k], container, rs'[k]) {
      if k > 0 {
        assert idx'[k] == idx[k - 1] && rs'[k] == rs[k - 1];
      }
    }
  }

  /** Records come out one per record line, in order, each as the line reads. */
  lemma {:induction false} ParsedRecords(lines: seq<string>, i: nat, container: string)
    requires ParseFrom(lines, i, container).Parsed?
    ensures AllDescribe(lines, container, RecordLines(lines, i), ParseFrom(lines, i, container).routes)
    decreases |lines| - i
  {
    if i < |lines| {
      var line := Strip(lines[i]);
      BannerIsNotRecord(line);
      if IsBanner(line) || !StartsRecord(line) {
        ParsedRecords(lines, i + 1, container);
        assert RecordLines(lines, i) == RecordLines(lines, i + 1);
      } else {
        var head := RecordHead(line, container).value;
        var k := Lookahead(lines, i);
        var next := if k.NotContinuation? then i + 1 else i + 2;
        ParsedRecords(lines, next, container);
        var rest := ParseFrom(lines, next, container).routes;
        assert ParseFrom(lines, i, container).routes == [Attach(head, k)] + rest;
        if next == i + 2 {
          BannerIsNotRecord(Strip(lines[i + 1]));
          assert RecordLines(lines, i + 1) == RecordLines(lines, i + 2);
        }
        assert RecordLines(lines, i) == [i] + RecordLines(lines, next);
        HeadDescribes(lines, i, container);
        AllDescribeCons(lines, container, i, Attach(head, k), RecordLines(lines, next), rest);
      }
    }
  }

  /** Record line m has fewer than three fields. */
  ghost predicate ShortRecordAt(lines: seq<string>, m: nat) {
    m < |lines| && StartsRecord(Strip(lines[m])) && |Fields(Strip(lines[m]))| < 3
  }

  /** Line m is a continuation of the record line before it, with fewer than
      two fields. */
  ghost predicate ShortContinuationLine(lines: seq<string>, m: nat) {
    0 < m < |lines| && StartsRecord(Strip(lines[m - 1])) && HasContinuation(lines, m - 1)
    && |Fields(Strip(lines[m]))| < 2
  }

  /** The location a Malformed result names is a short record line, or a short
      continuation right after a record line. */
  lemma {:induction false} MalformedAt(lines: seq<string>, i: nat, container: string)
    requires ParseFrom(lines, i, container).Malformed?
    ensures var m := ParseFrom(lines, i, container).line;
      i <= m < |lines| && (ShortRecordAt(lines, m) || (m > i && ShortContinuationLine(lines, m)))
    decreases |lines| - i
  {
    var line := Strip(lines[i]);
    if IsBanner(line) || !StartsRecord(line) {
      ParseSkips(lines, i, container);
      MalformedAt(lines, i + 1, container);
    } else if RecordHead(line, container).None? {
      ParseStops(lines, i, container);
    } else if Lookahead(lines, i).ShortContinuation? {
      ParseStops(lines, i, container);
      ShortContinuationAt(lines, i);
    } else {
      ParseTakes(lines, i, container);
      var k := Lookahead(lines, i);
      var next := if k.NotContinuation? then i + 1 else i + 2;
      MalformedAt(lines, next, container);
    }
  }

  lemma ShortContinuationAt(lines: seq<string>, i: nat)
    requires i < |lines| && StartsRecord(Strip(lines[i])) && Lookahead(lines, i).ShortContinuation?
    ensures ShortContinuationLine(lines, i + 1)
  {
  }

  // ---------------------------------------------------------------------------
  // Consequences

  /** No record's destination is empty or starts with anything but a digit;
      in particular no record is named "via". */
  lemma DestinationsStartWithDigit(lines: seq<string>, container: string)
    requires ParseFrom(lines, 0, container).Parsed?
    ensures forall r | r in ParseFrom(lines, 0, container).routes ::
      |r.destination| > 0 && IsDigit(r.destination[0]) && r.destination != "via"
  {
    ParsedRecords(lines, 0, container);
    RecordLinesSpec(lines, 0);
    var rs := ParseFrom(lines, 0, container).routes;
    var idx := RecordLines(lines, 0);
    forall r | r in rs ensures |r.destination| > 0 && IsDigit(r.destination[0]) && r.destination != "via" {
      var k :| 0 <= k < |rs| && rs[k] == r;
      DescribedDestination(lines, idx[k], container, r);
    }
  }

  lemma DescribedDestination(lines: seq<string>, j: nat, container: string, r: Route)
    requires j < |lines| && StartsRecord(Strip(lines[j])) && Describes(lines, j, container, r)
    ensures |r.destination| > 0 && IsDigit(r.destination[0]) && r.destination != "via"
  {
    FirstField(Strip(lines[j]));
    assert !IsDigit("via"[0]);
  }

  /** Next hop and interface, when set, are whole fields and never empty. */
  lemma OptionalFieldsNonEmpty(lines: seq<string>, container: string)
    requires ParseFrom(lines, 0, container).Parsed?
    ensures forall r | r in ParseFrom(lines, 0, container).routes :: r.nextHop != Some("") && r.iface != Some("")
  {
    ParsedRecords(lines, 0, container);
    var rs := ParseFrom(lines, 0, container).routes;
    var idx := RecordLines(lines, 0);
    forall r | r in rs ensures r.nextHop != Some("") && r.iface != Some("") {
      var k :| 0 <= k < |rs| && rs[k] == r;
      assert Describes(lines, idx[k], container, r);
      DescribedOptionalsNonEmpty(lines, idx[k], container, r);
    }
  }

  lemma DescribedOptionalsNonEmpty(lines: seq<string>, j: nat, container: string, r: Route)
    requires j < |lines| && Describes(lines, j, container, r)
    ensures r.nextHop != Some("") && r.iface != Some("")
  {
    if HasContinuation(lines, j) {
      FieldsAreWords(Strip(lines[j + 1]));
    }
  }

  /** A dump without continuation lines yields one record per record line,
      none of which has a next hop or an interface. */
  lemma WithoutContinuations(lines: seq<string>, container: string)
    requires forall j | 0 <= j < |lines| :: !StartsWith(Strip(lines[j]), "via") && !StartsWith(Strip(lines[j]), "dev")
    requires forall j | 0 <= j < |lines| && StartsRecord(Strip(lines[j])) :: |Fields(Strip(lines[j]))| >= 3
    ensures ParseFrom(lines, 0, container).Parsed?
    ensures var rs := ParseFrom(lines, 0, container).routes;
      && |rs| == |RecordLines(lines, 0)|
      && forall r | r in rs :: r.nextHop == None && r.iface == None
  {
    ParsedIffWellFormed(lines, 0, container);
    ParsedRecords(lines, 0, container);
    var rs := ParseFrom(lines, 0, container).routes;
    var idx := RecordLines(lines, 0);
    forall r | r in rs ensures r.nextHop == None && r.iface == None {
      var k :| 0 <= k < |rs| && rs[k] == r;
      assert Describes(lines, idx[k], container, rs[k]);
      assert !HasContinuation(lines, idx[k]);
    }
  }
}
